/** Strings as `QString` treats them: white space, decimal numbers and their parsing. */
module Text {
  import opened Basics

  /** `QChar::isSpace`. */
  predicate IsSpace(c: char) {
    || c == ' ' || '\t' <= c <= '\r' || c == '\U{85}' || c == '\U{a0}' || c == '\U{1680}'
    || '\U{2000}' <= c <= '\U{200a}' || c == '\U{2028}' || c == '\U{2029}' || c == '\U{202f}'
    || c == '\U{205f}' || c == '\U{3000}'
  }

  predicate IsDigit(c: char) {
    '0' <= c <= '9'
  }

  predicate AllDigits(s: string) {
    forall i :: 0 <= i < |s| ==> IsDigit(s[i])
  }

  function TrimLeft(s: string): string {
    if s != "" && IsSpace(s[0]) then TrimLeft(s[1..]) else s
  }

  function TrimRight(s: string): string {
    if s != "" && IsSpace(s[|s| - 1]) then TrimRight(s[..|s| - 1]) else s
  }

  /** `QString::trimmed`. */
  function Trim(s: string): string {
    TrimRight(TrimLeft(s))
  }

  /** No white space at either end. */
  predicate Trimmed(s: string) {
    s != "" ==> !IsSpace(s[0]) && !IsSpace(s[|s| - 1])
  }

  /** Where `c` first occurs in `s`, or the length of `s`. */
  function IndexOf(s: string, c: char): (k: nat)
    ensures k <= |s| && (k < |s| ==> s[k] == c) && forall j :: 0 <= j < k ==> s[j] != c
  {
    if s == "" || s[0] == c then 0 else 1 + IndexOf(s[1..], c)
  }

  function Zeros(n: nat): string {
    seq(n, _ => '0')
  }

  /** `QString::number`. */
  function Digits(n: nat): (s: string)
    ensures s != "" && AllDigits(s)
  {
    if n < 10 then [n as char + '0'] else Digits(n / 10) + [(n % 10) as char + '0']
  }

  /** The number a string of digits stands for. */
  function Value(s: string): nat
    requires AllDigits(s)
  {
    if s == "" then 0 else Value(s[..|s| - 1]) * 10 + (s[|s| - 1] - '0') as nat
  }

  function Unsigned(t: string): string {
    if t != "" && t[0] == '+' then t[1..] else t
  }

  /** `QString::toULongLong`: 0 for anything that is not a number below 2^64. */
  function ToULongLong(s: string): nat {
    var u := Unsigned(Trim(s));
    if u != "" && AllDigits(u) && Value(u) < TWO_TO_64 then Value(u) else 0
  }

  lemma {:induction false} ValueOfDigits(n: nat)
    ensures Value(Digits(n)) == n
  {
    if n >= 10 {
      ValueOfDigits(n / 10);
      assert Digits(n)[..|Digits(n)| - 1] == Digits(n / 10);
    }
  }

  lemma {:induction false} LeadingZeros(k: nat, s: string)
    requires AllDigits(s)
    ensures AllDigits(Zeros(k) + s) && Value(Zeros(k) + s) == Value(s)
  {
    var z := Zeros(k) + s;
    if s != "" {
      LeadingZeros(k, s[..|s| - 1]);
      assert z[..|z| - 1] == Zeros(k) + s[..|s| - 1];
    } else if k > 0 {
      LeadingZeros(k - 1, s);
      assert z[..|z| - 1] == Zeros(k - 1) + s;
    }
  }

  lemma TrimmedStays(s: string)
    requires Trimmed(s)
    ensures Trim(s) == s
  {
  }

  predicate AllSpace(s: string) {
    forall i :: 0 <= i < |s| ==> IsSpace(s[i])
  }

  lemma {:induction false} TrimLeftDrops(left: string, t: string)
    requires AllSpace(left) && (t != "" ==> !IsSpace(t[0]))
    ensures TrimLeft(left + t) == t
  {
    if left == "" {
      assert left + t == t;
    } else {
      assert (left + t)[1..] == left[1..] + t;
      TrimLeftDrops(left[1..], t);
    }
  }

  lemma {:induction false} TrimRightDrops(t: string, right: string)
    requires AllSpace(right) && (t != "" ==> !IsSpace(t[|t| - 1]))
    ensures TrimRight(t + right) == t
  {
    if right == "" {
      assert t + right == t;
    } else {
      var s := t + right;
      assert s[..|s| - 1] == t + right[..|right| - 1];
      TrimRightDrops(t, right[..|right| - 1]);
    }
  }

  /** Trimming takes away all white space at both ends and nothing else. */
  lemma TrimDrops(left: string, t: string, right: string)
    requires AllSpace(left) && AllSpace(right) && Trimmed(t)
    ensures Trim(left + t + right) == t
  {
    if t == "" {
      TrimLeftDrops(left + t + right, "");
      assert left + t + right + "" == left + t + right;
    } else {
      TrimLeftDrops(left, t + right);
      assert left + t + right == left + (t + right);
      TrimRightDrops(t, right);
    }
  }

  /** Strings of digits are parsed to their value, with any number of leading zeros. */
  lemma {:induction false} DigitsParse(s: string)
    requires s != "" && AllDigits(s) && Value(s) < TWO_TO_64
    ensures ToULongLong(s) == Value(s)
  {
    assert Trimmed(s);
    TrimmedStays(s);
  }

  lemma DigitsNext(n: nat, d: nat)
    requires n > 0 && d < 10
    ensures Digits(n * 10 + d) == Digits(n) + [d as char + '0']
  {
  }

  /** A string of digits is the printed number, with leading zeros. */
  lemma {:induction false} NumberSpelled(s: string) returns (k: nat)
    requires s != "" && AllDigits(s)
    ensures s == Zeros(k) + Digits(Value(s))
  {
    var init, last := s[..|s| - 1], s[|s| - 1];
    var d := (last - '0') as nat;
    if init == "" {
      k := 0;
    } else {
      k := NumberSpelled(init);
      if Value(init) > 0 {
        DigitsNext(Value(init), d);
        assert s == Zeros(k) + (Digits(Value(init)) + [last]);
      } else {
        assert init == Zeros(k + 1);
        k := k + 1;
      }
    }
  }

  /** Up to white space at both ends, a plus sign and leading zeros, `s` is `n` as printed. */
  ghost predicate Spells(s: string, n: nat) {
    exists k: nat :: Trim(s) == Zeros(k) + Digits(n) || Trim(s) == "+" + (Zeros(k) + Digits(n))
  }

  lemma SignIsDropped(u: string)
    requires u != "" && IsDigit(u[0])
    ensures Unsigned(u) == u && Unsigned("+" + u) == u
  {
  }

  lemma SpelledParses(s: string, n: nat)
    requires Spells(s, n) && n < TWO_TO_64
    ensures ToULongLong(s) == n
  {
    var t := Trim(s);
    var k: nat :| t == Zeros(k) + Digits(n) || t == "+" + (Zeros(k) + Digits(n));
    var u := Zeros(k) + Digits(n);
    LeadingZeros(k, Digits(n));
    ValueOfDigits(n);
    SignIsDropped(u);
  }

  /** A positive number is read from exactly the strings that spell it. */
  lemma ParsesIffSpelled(s: string, n: nat)
    requires 0 < n < TWO_TO_64
    ensures ToULongLong(s) == n <==> Spells(s, n)
  {
    if ToULongLong(s) == n {
      var t := Trim(s);
      var k := NumberSpelled(Unsigned(t));
      assert t == Unsigned(t) || t == "+" + Unsigned(t);
    }
    if Spells(s, n) {
      SpelledParses(s, n);
    }
  }
}
