/** Amounts of money as text: `formatAmount` and `parseAmount`. */
module Amounts {
  import opened Basics
  import opened Text

  // ----- printing -----

  /** The digits of `a`, padded with zeros so that one digit stands before the `d` decimals. */
  function Padded(a: nat, d: nat): (s: string)
    ensures |s| > d && AllDigits(s)
  {
    var s := Digits(a);
    if |s| < d + 1 then Zeros(d + 1 - |s|) + s else s
  }

  /** Trailing zeros removed, as long as more than `keep` characters remain. */
  function StripZeros(s: string, keep: nat): (r: string)
    ensures r <= s && |r| >= if |s| < keep then |s| else keep
    ensures |r| > keep ==> r[|r| - 1] != '0'
  {
    if |s| > keep && s[|s| - 1] == '0' then StripZeros(s[..|s| - 1], keep) else s
  }

  /** Commas between groups of three, counted from the right. */
  function Group(s: string): string {
    if |s| <= 3 then s else Group(s[..|s| - 3]) + "," + s[|s| - 3..]
  }

  function Fraction(s: string, dot: nat): string
    requires dot <= |s|
  {
    StripZeros(s, dot + 2)[dot..]
  }

  /** Digits with a point at `dot`. */
  function Pointed(s: string, dot: nat): string
    requires dot <= |s|
  {
    Group(s[..dot]) + ("." + Fraction(s, dot))
  }

  function Format(a: nat, d: nat): string {
    var s := Padded(a, d);
    Pointed(s, |s| - d)
  }

  /** The first loop of `formatAmount`. */
  method DropTrailingZeros(s: string, dot: nat) returns (result: string)
    requires dot <= |s|
    ensures result == StripZeros(s, dot + 2)
  {
    result := s;
    var pos: int := |result| - 1;
    while pos > dot + 1
      invariant pos == |result| - 1
      invariant StripZeros(s, dot + 2) == StripZeros(result, dot + 2)
    {
      if result[pos] != '0' {
        break;
      }
      assert result[..pos] + result[pos + 1..] == result[..pos];
      result := result[..pos] + result[pos + 1..];
      pos := pos - 1;
    }
  }

  /** The second loop: the digits in front of `dot` are grouped. */
  method InsertCommas(s: string, dot: nat) returns (result: string)
    requires dot <= |s| && AllDigits(s[..dot])
    ensures result == Group(s[..dot]) + s[dot..]
  {
    result := s;
    ghost var whole, tail := s[..dot], s[dot..];
    var pos: int := dot - 3;
    assert whole[..dot] == whole;
    while pos > 0
      invariant pos <= dot - 3 && (dot > 0 ==> pos > -3) && (dot == 0 ==> pos == -3)
      invariant result == whole[..pos + 3] + tail
      invariant Group(whole) + s[dot..] == Group(whole[..pos + 3]) + tail
    {
      CommaInserted(whole, pos + 3, tail);
      assert result[pos - 1] == whole[pos - 1];
      if IsDigit(result[pos - 1]) {
        result := result[..pos] + "," + result[pos..];
      }
      tail := "," + whole[pos..pos + 3] + tail;
      pos := pos - 3;
    }
  }

  method PlacePoint(s: string, dot: nat) returns (result: string)
    requires dot <= |s| && AllDigits(s)
    ensures result == Pointed(s, dot)
  {
    result := DropTrailingZeros(s, dot);
    ghost var fraction := result[dot..];
    result := result[..dot] + "." + result[dot..];
    assert result[..dot] == s[..dot] && result[dot..] == "." + fraction;
    result := InsertCommas(result, dot);
  }

  method PadAmount(a: nat, d: nat) returns (result: string)
    ensures result == Padded(a, d)
  {
    result := Digits(a);
    if |result| < d + 1 {
      result := Zeros(d + 1 - |result|) + result;
    }
  }

  method FormatAmount(a: nat, d: nat) returns (result: string)
    ensures result == Format(a, d)
  {
    result := PadAmount(a, d);
    var dot := |result| - d;
    result := PlacePoint(result, dot);
  }

  lemma CommaInserted(whole: string, k: nat, tail: string)
    requires 3 < k <= |whole|
    ensures whole[..k] + tail == whole[..k - 3] + whole[k - 3..k] + tail
    ensures Group(whole[..k]) + tail == Group(whole[..k - 3]) + ("," + whole[k - 3..k] + tail)
  {
    assert whole[..k][..k - 3] == whole[..k - 3];
    assert whole[..k][k - 3..] == whole[k - 3..k];
  }

  // ----- parsing -----

  function Without(s: string, c: char): string {
    if s == "" then "" else (if s[0] == c then "" else [s[0]]) + Without(s[1..], c)
  }

  function Scaled(digits: string, zeros: nat): nat {
    if digits == "" then 0 else ToULongLong(digits + Zeros(zeros))
  }

  function Parse(text: string, d: nat): nat {
    var s := Without(Trim(text), ',');
    var point := IndexOf(s, '.');
    if point == |s| then Scaled(s, d) else ParsePointed(s, point, d)
  }

  /** The number with its point at `point`. */
  function ParsePointed(s: string, point: nat, d: nat): nat
    requires point < |s|
  {
    var t := StripZeros(s, point + 1 + d);
    var size := |t| - point - 1;
    if d < size then 0 else Scaled(t[..point] + t[point + 1..], d - size)
  }

  /** The loop that drops zeros beyond the last decimal place. */
  method DropSpareZeros(text: string, point: nat, d: nat) returns (s: string)
    requires point < |text|
    ensures s == StripZeros(text, point + 1 + d)
  {
    s := text;
    var size := |s| - point - 1;
    while d < size && s[|s| - 1..] == "0"
      invariant 0 <= size == |s| - point - 1
      invariant StripZeros(text, point + 1 + d) == StripZeros(s, point + 1 + d)
    {
      s := s[..|s| - 1];
      size := size - 1;
    }
  }

  method ParseDigits(text: string, n: nat) returns (amount: nat)
    ensures amount == Scaled(text, n)
  {
    if text == "" {
      return 0;
    }
    var s := text;
    var i := 0;
    while i < n
      invariant 0 <= i <= n && s == text + Zeros(i)
    {
      s := s + "0";
      i := i + 1;
    }
    return ToULongLong(s);
  }

  method RemovePoint(text: string, point: nat, d: nat) returns (amount: nat)
    requires point < |text|
    ensures amount == ParsePointed(text, point, d)
  {
    var s := DropSpareZeros(text, point, d);
    var size := |s| - point - 1;
    if d < size {
      return 0;
    }
    s := s[..point] + s[point + 1..];
    amount := ParseDigits(s, d - size);
  }

  method ParseAmount(text: string, d: nat) returns (amount: nat)
    ensures amount == Parse(text, d)
  {
    var s := Without(Trim(text), ',');
    var point := IndexOf(s, '.');
    if point < |s| {
      amount := RemovePoint(s, point, d);
    } else {
      amount := ParseDigits(s, d);
    }
  }

  // ----- what the texts mean -----

  function Pow10(n: nat): (p: nat)
    ensures p > 0
  {
    if n == 0 then 1 else 10 * Pow10(n - 1)
  }

  lemma {:induction false} Pow10Add(a: nat, b: nat)
    ensures Pow10(a + b) == Pow10(a) * Pow10(b)
    decreases a
  {
    if a > 0 {
      Pow10Add(a - 1, b);
    }
  }

  lemma Cancel(x: nat, y: nat, p: nat)
    requires p > 0 && x * p == y * p
    ensures x == y
  {
  }

  lemma {:induction false} ZeroAppended(s: string)
    requires AllDigits(s)
    ensures AllDigits(s + "0") && Value(s + "0") == Value(s) * 10
  {
    assert (s + "0")[..|s|] == s;
  }

  lemma TimesTen(v: nat, p: nat)
    ensures v * p * 10 == v * (10 * p)
  {
  }

  lemma {:induction false} TrailingZeros(s: string, k: nat)
    requires AllDigits(s)
    ensures AllDigits(s + Zeros(k)) && Value(s + Zeros(k)) == Value(s) * Pow10(k)
    decreases k
  {
    if k == 0 {
      assert s + Zeros(k) == s;
    } else {
      var t := s + Zeros(k - 1);
      TrailingZeros(s, k - 1);
      ZeroAppended(t);
      TimesTen(Value(s), Pow10(k - 1));
      assert Zeros(k) == Zeros(k - 1) + "0";
      SeqAssoc(s, Zeros(k - 1), "0");
    }
  }

  lemma {:induction false} StripRestores(s: string, keep: nat)
    ensures StripZeros(s, keep) + Zeros(|s| - |StripZeros(s, keep)|) == s
    decreases |s|
  {
    if |s| > keep && s[|s| - 1] == '0' {
      StripRestores(s[..|s| - 1], keep);
      assert s == s[..|s| - 1] + "0";
    }
  }

  lemma {:induction false} StripSuffix(a: string, b: string, keep: nat)
    requires |a| <= keep
    ensures StripZeros(a + b, keep) == a + StripZeros(b, keep - |a|)
    decreases |b|
  {
    if b != "" {
      var s := a + b;
      assert s[..|s| - 1] == a + b[..|b| - 1];
      StripSuffix(a, b[..|b| - 1], keep);
    }
  }

  lemma PrefixIs(s: string, r: string)
    requires r <= s
    ensures s[..|r|] == r
  {
  }

  /** After the zeros beyond place `d` are gone, `m` decimals are left. */
  lemma StripPointed(ip: string, fp: string, d: nat) returns (m: nat)
    ensures m <= |fp| && StripZeros(ip + "." + fp, |ip| + 1 + d) == ip + "." + fp[..m]
    ensures fp == fp[..m] + Zeros(|fp| - m)
    ensures m > d ==> fp[m - 1] != '0'
    ensures |fp| <= d ==> m == |fp|
  {
    var kept := StripZeros(fp, d);
    m := |kept|;
    PrefixIs(fp, kept);
    StripSuffix(ip + ".", fp, |ip| + 1 + d);
    StripRestores(fp, d);
  }

  lemma {:induction false} ScaledMeans(u: string, k: nat)
    requires AllDigits(u)
    ensures Scaled(u, k) == if Value(u) * Pow10(k) < TWO_TO_64 then Value(u) * Pow10(k) else 0
  {
    if u != "" {
      TrailingZeros(u, k);
      var z := u + Zeros(k);
      TrimmedStays(z);
    }
  }

  /** `n` over 10^`f`, as a number of units of 10^-`d`, is the natural number `v`. */
  ghost predicate Exactly(n: nat, f: nat, d: nat, v: nat) {
    v * Pow10(f) == n * Pow10(d)
  }

  lemma Regroup(w: nat, a: nat, b: nat, c: nat)
    ensures w * b * (a * c) == w * a * (b * c)
  {
  }

  lemma ExactlyScaled(w: nat, m: nat, f: nat, d: nat, v: nat)
    requires m <= f && m <= d
    ensures Exactly(w * Pow10(f - m), f, d, v) <==> v == w * Pow10(d - m)
  {
    var a, b, c := Pow10(f - m), Pow10(d - m), Pow10(m);
    Pow10Add(f - m, m);
    Pow10Add(d - m, m);
    Regroup(w, a, b, c);
    if v * (a * c) == w * a * (b * c) {
      Cancel(v, w * b, a * c);
    }
  }

  lemma NotMultiple(v: nat, w: nat, a: nat, x: nat, c: nat)
    requires w % 10 != 0 && a > 0 && c > 0
    ensures v * (a * (10 * x * c)) != w * a * c
  {
    assert v * (a * (10 * x * c)) == 10 * (v * x) * (a * c);
    if 10 * (v * x) * (a * c) == w * (a * c) {
      Cancel(10 * (v * x), w, a * c);
    }
  }

  lemma TooFine(w: nat, m: nat, f: nat, d: nat, v: nat)
    requires d < m <= f && w % 10 != 0
    ensures !Exactly(w * Pow10(f - m), f, d, v)
  {
    var a, x, c := Pow10(f - m), Pow10(m - d - 1), Pow10(d);
    Pow10Add(f - m, m);
    Pow10Add(m - d, d);
    NotMultiple(v, w, a, x, c);
    assert Pow10(m - d) == 10 * x;
  }

  lemma {:induction false} LastDigit(s: string)
    requires AllDigits(s) && s != "" && s[|s| - 1] != '0'
    ensures Value(s) % 10 != 0
  {
    UnitDigit(Value(s[..|s| - 1]), (s[|s| - 1] - '0') as nat);
  }

  lemma UnitDigit(q: nat, r: nat)
    requires r < 10
    ensures (q * 10 + r) % 10 == r
  {
  }

  /** `r` is the number of units, if that is a natural number below 2^64, and 0 otherwise. */
  ghost predicate UnitsOf(n: nat, f: nat, d: nat, r: nat, v: nat) {
    (Exactly(n, f, d, v) && v < TWO_TO_64 ==> r == v) && (r != 0 ==> r < TWO_TO_64 && Exactly(n, f, d, r))
  }

  lemma UnitsFound(w: nat, m: nat, f: nat, d: nat, r: nat, v: nat)
    requires m <= f && (m > d ==> w % 10 != 0)
    requires r == if m > d || w * Pow10(d - m) >= TWO_TO_64 then 0 else w * Pow10(d - m)
    ensures UnitsOf(w * Pow10(f - m), f, d, r, v)
  {
    if m > d {
      TooFine(w, m, f, d, v);
    } else {
      ExactlyScaled(w, m, f, d, v);
      ExactlyScaled(w, m, f, d, r);
    }
  }

  lemma PointRemoved(ip: string, fp: string, t: string)
    requires t == ip + "." + fp
    ensures |t| == |ip| + 1 + |fp| && t[..|ip|] + t[|ip| + 1..] == ip + fp
  {
    assert t[..|ip|] == ip && t[|ip| + 1..] == fp;
  }

  lemma DigitsJoined(a: string, b: string)
    requires AllDigits(a) && AllDigits(b)
    ensures AllDigits(a + b)
  {
  }

  lemma ParsePointedIs(s: string, ip: string, kept: string, d: nat)
    requires |ip| < |s| && StripZeros(s, |ip| + 1 + d) == ip + "." + kept
    ensures ParsePointed(s, |ip|, d) == if |kept| > d then 0 else Scaled(ip + kept, d - |kept|)
  {
    PointRemoved(ip, kept, ip + "." + kept);
  }

  lemma PointedIs(ip: string, fp: string, d: nat) returns (m: nat)
    requires AllDigits(ip) && AllDigits(fp)
    ensures m <= |fp| && fp == fp[..m] + Zeros(|fp| - m) && (m > d ==> fp[m - 1] != '0')
    ensures AllDigits(ip + fp[..m])
    ensures ParsePointed(ip + "." + fp, |ip|, d) == if m > d then 0 else Scaled(ip + fp[..m], d - m)
  {
    m := StripPointed(ip, fp, d);
    DigitsJoined(ip, fp[..m]);
    ParsePointedIs(ip + "." + fp, ip, fp[..m], d);
  }

  lemma WithoutSpareZeros(ip: string, fp: string, m: nat)
    requires AllDigits(ip + fp) && m <= |fp| && fp == fp[..m] + Zeros(|fp| - m) && AllDigits(ip + fp[..m])
    ensures Value(ip + fp) == Value(ip + fp[..m]) * Pow10(|fp| - m)
  {
    assert ip + fp == ip + fp[..m] + Zeros(|fp| - m);
    TrailingZeros(ip + fp[..m], |fp| - m);
  }

  lemma PointedDigits(ip: string, fp: string, d: nat) returns (m: nat, u: string)
    requires AllDigits(ip) && AllDigits(fp) && AllDigits(ip + fp)
    ensures m <= |fp| && AllDigits(u) && Value(ip + fp) == Value(u) * Pow10(|fp| - m)
    ensures m > d ==> u != "" && u[|u| - 1] != '0'
    ensures ParsePointed(ip + "." + fp, |ip|, d) == if m > d then 0 else Scaled(u, d - m)
  {
    m := PointedIs(ip, fp, d);
    u := ip + fp[..m];
    WithoutSpareZeros(ip, fp, m);
  }

  /** The units that the digits `u`, `m` of them behind the point, stand for. */
  lemma UnitsOfDigits(u: string, m: nat, d: nat, r: nat) returns (w: nat)
    requires AllDigits(u) && (m > d ==> u != "" && u[|u| - 1] != '0') && r == if m > d then 0 else Scaled(u, d - m)
    ensures w == Value(u) && (m > d ==> w % 10 != 0)
    ensures r == if m > d || w * Pow10(d - m) >= TWO_TO_64 then 0 else w * Pow10(d - m)
  {
    w := Value(u);
    if m > d {
      LastDigit(u);
    } else {
      ScaledMeans(u, d - m);
    }
  }

  lemma {:induction false} PointedMeans(ip: string, fp: string, d: nat, r: nat, v: nat)
    requires AllDigits(ip) && AllDigits(fp) && AllDigits(ip + fp) && r == ParsePointed(ip + "." + fp, |ip|, d)
    ensures UnitsOf(Value(ip + fp), |fp|, d, r, v)
  {
    var m, u := PointedDigits(ip, fp, d);
    var w := UnitsOfDigits(u, m, d, r);
    UnitsFound(w, m, |fp|, d, r, v);
  }

  lemma {:induction false} PointIndex(ip: string, fp: string)
    requires AllDigits(ip)
    ensures IndexOf(ip + "." + fp, '.') == |ip| < |ip + "." + fp|
  {
    assert (ip + "." + fp)[|ip|] == '.';
  }

  /**
    Parsing is exact: a decimal number that is a whole number of units below 2^64 gives that
    number of units, and any other gives 0.
   */
  lemma {:induction false} ParseIsExact(text: string, ip: string, fp: string, d: nat, v: nat)
    requires AllDigits(ip) && AllDigits(fp) && AllDigits(ip + fp)
    requires Without(Trim(text), ',') == ip + "." + fp
    ensures UnitsOf(Value(ip + fp), |fp|, d, Parse(text, d), v)
  {
    PointIndex(ip, fp);
    PointedMeans(ip, fp, d, Parse(text, d), v);
  }

  lemma {:induction false} ParseWhole(text: string, u: string, d: nat)
    requires AllDigits(u) && Without(Trim(text), ',') == u
    ensures Parse(text, d) == Scaled(u, d)
  {
    assert '.' !in u;
  }

  lemma {:induction false} WholeUnits(n: nat, d: nat, r: nat, v: nat)
    requires r == if n * Pow10(d) < TWO_TO_64 then n * Pow10(d) else 0
    ensures UnitsOf(n, 0, d, r, v)
  {
  }

  /** The same for a number without a point, the empty text among them. */
  lemma {:induction false} WholeParseIsExact(text: string, u: string, d: nat, v: nat)
    requires AllDigits(u) && Without(Trim(text), ',') == u
    ensures UnitsOf(Value(u), 0, d, Parse(text, d), v)
  {
    ParseWhole(text, u, d);
    ScaledMeans(u, d);
    WholeUnits(Value(u), d, Scaled(u, d), v);
  }

  // ----- what is printed -----

  lemma {:induction false} WithoutAppend(a: string, b: string, c: char)
    ensures Without(a + b, c) == Without(a, c) + Without(b, c)
    decreases |a|
  {
    if a == "" {
      assert a + b == b;
    } else {
      assert (a + b)[1..] == a[1..] + b;
      WithoutAppend(a[1..], b, c);
    }
  }

  lemma {:induction false} WithoutAbsent(s: string, c: char)
    requires c !in s
    ensures Without(s, c) == s
  {
    if s != "" {
      WithoutAbsent(s[1..], c);
    }
  }

  lemma {:induction false} WithoutBetween(a: string, b: string, c: char)
    ensures Without(a + [c] + b, c) == Without(a, c) + Without(b, c)
  {
    WithoutAppend(a, [c] + b, c);
    assert a + [c] + b == a + ([c] + b);
    assert ([c] + b)[1..] == b;
  }

  lemma {:induction false} Ungroup(s: string)
    requires AllDigits(s)
    ensures Without(Group(s), ',') == s
    decreases |s|
  {
    if |s| <= 3 {
      WithoutAbsent(s, ',');
    } else {
      var a, b := s[..|s| - 3], s[|s| - 3..];
      Ungroup(a);
      WithoutAbsent(b, ',');
      WithoutBetween(Group(a), b, ',');
    }
  }

  /** Counted from the right, every fourth character is a comma and the others are digits. */
  ghost predicate Grouped(g: string) {
    |g| % 4 != 0 && forall i :: 0 <= i < |g| ==> if (|g| - i) % 4 == 0 then g[i] == ',' else IsDigit(g[i])
  }

  lemma GroupedLonger(h: string, b: string)
    requires Grouped(h) && |b| == 3 && AllDigits(b)
    ensures Grouped(h + "," + b)
  {
    var g := h + "," + b;
    forall i | 0 <= i < |g| ensures if (|g| - i) % 4 == 0 then g[i] == ',' else IsDigit(g[i]) {
      if i < |h| {
        assert g[i] == h[i] && |g| - i == |h| - i + 4;
      } else if i > |h| {
        assert g[i] == b[i - |h| - 1];
      }
    }
  }

  lemma {:induction false} CommasEveryThree(s: string)
    requires AllDigits(s) && s != ""
    ensures Grouped(Group(s))
    decreases |s|
  {
    if |s| > 3 {
      CommasEveryThree(s[..|s| - 3]);
      GroupedLonger(Group(s[..|s| - 3]), s[|s| - 3..]);
    }
  }

  lemma {:induction false} GroupEnds(s: string)
    requires AllDigits(s) && s != ""
    ensures Group(s) != "" && IsDigit(Group(s)[0])
    decreases |s|
  {
    if |s| > 3 {
      GroupEnds(s[..|s| - 3]);
    }
  }

  lemma PointedTrimmed(g: string, tail: string)
    requires g != "" && IsDigit(g[0]) && tail != "" && (tail[|tail| - 1] == '.' || IsDigit(tail[|tail| - 1]))
    ensures Trim(g + tail) == g + tail
  {
    var t := g + tail;
    assert t[0] == g[0] && t[|t| - 1] == tail[|tail| - 1];
    TrimmedStays(t);
  }

  lemma {:induction false} PointedUngrouped(ip: string, tail: string)
    requires AllDigits(ip) && ',' !in tail
    ensures Without(Group(ip) + tail, ',') == ip + tail
  {
    WithoutAppend(Group(ip), tail, ',');
    Ungroup(ip);
    WithoutAbsent(tail, ',');
  }

  lemma PartsReadBack(ip: string, fp: string, text: string)
    requires AllDigits(ip) && ip != "" && AllDigits(fp) && text == Group(ip) + ("." + fp)
    ensures Without(Trim(text), ',') == ip + "." + fp
  {
    GroupEnds(ip);
    PointedTrimmed(Group(ip), "." + fp);
    PointedUngrouped(ip, "." + fp);
    SeqAssoc(ip, ".", fp);
  }

  /** What is printed for `s` with a point at `dot`, once trimmed and without commas. */
  lemma PointedReadBack(s: string, dot: nat, text: string)
    requires AllDigits(s) && 0 < dot <= |s| && text == Pointed(s, dot)
    ensures Without(Trim(text), ',') == s[..dot] + "." + Fraction(s, dot)
  {
    FractionKeeps(s, dot);
    PartsReadBack(s[..dot], Fraction(s, dot), text);
  }

  /** The fraction drops only zeros: at most `d` digits, at least two where there are two. */
  lemma FractionKeeps(s: string, dot: nat)
    requires AllDigits(s) && dot <= |s|
    ensures var fp := Fraction(s, dot); var d := |s| - dot;
            && |fp| <= d && |fp| >= (if d < 2 then d else 2) && (|fp| > 2 ==> fp[|fp| - 1] != '0')
            && AllDigits(fp) && s[..dot] + fp + Zeros(d - |fp|) == s
  {
    StripRestores(s, dot + 2);
    var t := StripZeros(s, dot + 2);
    assert t == t[..dot] + t[dot..] && t[..dot] == s[..dot];
  }

  lemma {:induction false} ZerosKeepValue(s: string, size: nat, padded: string)
    requires AllDigits(s) && padded == if |s| < size then Zeros(size - |s|) + s else s
    ensures AllDigits(padded) && Value(padded) == Value(s)
  {
    if |s| < size {
      LeadingZeros(size - |s|, s);
    }
  }

  lemma {:induction false} PaddedValue(a: nat, d: nat)
    ensures Value(Padded(a, d)) == a
  {
    ValueOfDigits(a);
    ZerosKeepValue(Digits(a), d + 1, Padded(a, d));
  }

  lemma {:induction false} FractionExact(s: string, dot: nat)
    requires AllDigits(s) && dot <= |s|
    ensures var fp := Fraction(s, dot);
            && AllDigits(fp) && AllDigits(s[..dot] + fp)
            && Exactly(Value(s[..dot] + fp), |fp|, |s| - dot, Value(s))
  {
    var fp, d := Fraction(s, dot), |s| - dot;
    FractionKeeps(s, dot);
    TrailingZeros(s[..dot] + fp, d - |fp|);
    ExactlyScaled(Value(s[..dot] + fp), |fp|, |fp|, d, Value(s));
  }

  lemma {:induction false} ParseGives(text: string, ip: string, fp: string, d: nat, a: nat)
    requires AllDigits(ip) && AllDigits(fp) && AllDigits(ip + fp) && a < TWO_TO_64
    requires Without(Trim(text), ',') == ip + "." + fp && Exactly(Value(ip + fp), |fp|, d, a)
    ensures Parse(text, d) == a
  {
    ParseIsExact(text, ip, fp, d, a);
  }

  lemma PrintedReads(a: nat, d: nat) returns (ip: string, fp: string)
    ensures AllDigits(ip) && AllDigits(fp) && AllDigits(ip + fp)
    ensures Without(Trim(Format(a, d)), ',') == ip + "." + fp && Exactly(Value(ip + fp), |fp|, d, a)
  {
    var s := Padded(a, d);
    var dot := |s| - d;
    PaddedValue(a, d);
    FractionExact(s, dot);
    PointedReadBack(s, dot, Format(a, d));
    ip, fp := s[..dot], Fraction(s, dot);
  }

  /** Printing an amount and parsing it again gives the amount, for every number of decimals. */
  lemma FormatParses(a: nat, d: nat)
    requires a < TWO_TO_64
    ensures Parse(Format(a, d), d) == a
  {
    var ip, fp := PrintedReads(a, d);
    ParseGives(Format(a, d), ip, fp, d, a);
  }
}
