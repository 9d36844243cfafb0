/** Strings are sequences of bytes; case mapping and white space are those of ASCII. */
module Text {

  function LowerChar(c: char): char {
    if 'A' <= c <= 'Z' then (c as int + 32) as char else c
  }

  function Lower(s: string): (r: string)
    ensures |r| == |s|
    ensures forall i :: 0 <= i < |s| ==> r[i] == LowerChar(s[i])
  {
    seq(|s|, i requires 0 <= i < |s| => LowerChar(s[i]))
  }

  predicate IsBlank(c: char) { c == ' ' || c == '\t' }

  predicate IsSpace(c: char) { c == ' ' || 9 as char <= c <= 13 as char }

  function TrimLeft(s: string, drop: char -> bool): string {
    if s != [] && drop(s[0]) then TrimLeft(s[1..], drop) else s
  }

  function TrimRight(s: string, drop: char -> bool): string {
    if s != [] && drop(s[|s| - 1]) then TrimRight(s[..|s| - 1], drop) else s
  }

  function TrimSpace(s: string): string {
    TrimRight(TrimLeft(s, IsSpace), IsSpace)
  }

  predicate HasPrefix(s: string, p: string) { p <= s }

  predicate EndsWithDot(s: string) { s != [] && s[|s| - 1] == '.' }

  /** A name without its trailing dot. */
  function TrimDot(s: string): string {
    if EndsWithDot(s) then s[..|s| - 1] else s
  }

  /** A name with a trailing dot. */
  function Fqdn(s: string): string {
    if EndsWithDot(s) then s else s + "."
  }

  lemma FqdnOfTrimmed(s: string)
    ensures Fqdn(s) == TrimDot(s) + "."
  {
  }

  // ---------- splitting and joining ----------

  function IndexOf(s: string, c: char): (i: nat)
    ensures i <= |s|
    ensures i < |s| ==> s[i] == c
    ensures c !in s[..i]
    ensures i == |s| <==> c !in s
  {
    if s == [] then 0
    else if s[0] == c then 0
    else
      var i := IndexOf(s[1..], c) + 1;
      assert s == [s[0]] + s[1..];
      assert s[..i] == [s[0]] + s[1..][..i - 1];
      i
  }

  function Split(s: string, c: char): (parts: seq<string>)
    ensures parts != []
    ensures forall k :: 0 <= k < |parts| ==> c !in parts[k]
    decreases |s|
  {
    var i := IndexOf(s, c);
    if i == |s| then [s] else [s[..i]] + Split(s[i + 1..], c)
  }

  function Join(parts: seq<string>, sep: string): string {
    if parts == [] then ""
    else if |parts| == 1 then parts[0]
    else parts[0] + sep + Join(parts[1..], sep)
  }

  /** The position of `c` is the length of a prefix free of it. */
  lemma IndexOfAppended(a: string, c: char, b: string)
    requires c !in a
    ensures IndexOf(a + [c] + b, c) == |a|
  {
    var s := a + [c] + b;
    assert s[|a|] == c;
    assert forall k :: 0 <= k < |a| ==> s[k] == a[k];
  }

  /** Splitting undoes joining when no part contains the separator. */
  lemma {:induction false} SplitJoin(parts: seq<string>, c: char)
    requires parts != [] && forall k :: 0 <= k < |parts| ==> c !in parts[k]
    ensures Split(Join(parts, [c]), c) == parts
  {
    if |parts| > 1 {
      var rest := Join(parts[1..], [c]);
      SplitJoin(parts[1..], c);
      IndexOfAppended(parts[0], c, rest);
      var s := parts[0] + [c] + rest;
      assert s[..|parts[0]|] == parts[0];
      assert s[|parts[0]| + 1..] == rest;
    }
  }

  // ---------- decimal numbers ----------

  predicate IsDigit(c: char) { '0' <= c <= '9' }

  function Digit(c: char): nat {
    if IsDigit(c) then c as int - '0' as int else 0
  }

  function Decimal(s: string): nat {
    if s == "" then 0 else Decimal(s[..|s| - 1]) * 10 + Digit(s[|s| - 1])
  }

  function Itoa(n: nat): string {
    var digit := (n % 10 + '0' as int) as char;
    if n < 10 then [digit] else Itoa(n / 10) + [digit]
  }

  /** Digits without a leading zero, as `Itoa` writes them. */
  predicate Canonical(s: string) {
    && s != ""
    && (forall i :: 0 <= i < |s| ==> IsDigit(s[i]))
    && (|s| > 1 ==> s[0] != '0')
  }

  lemma {:induction false} ItoaReadsBack(n: nat)
    ensures Canonical(Itoa(n)) && Decimal(Itoa(n)) == n
    ensures n > 0 ==> Itoa(n)[0] != '0'
  {
    var s := Itoa(n);
    if n >= 10 {
      ItoaReadsBack(n / 10);
      assert s[..|s| - 1] == Itoa(n / 10);
    } else {
      assert s[..|s| - 1] == "";
    }
  }

  lemma {:induction false} DecimalPositive(s: string)
    requires s != "" && IsDigit(s[0]) && s[0] != '0'
    ensures Decimal(s) > 0
  {
    if |s| > 1 {
      DecimalPositive(s[..|s| - 1]);
    }
  }

  /** Canonical digits are the only ones `Itoa` writes for their value. */
  lemma {:induction false} CanonicalIsItoa(s: string)
    requires Canonical(s)
    ensures Itoa(Decimal(s)) == s
  {
    var rest, last := s[..|s| - 1], s[|s| - 1];
    assert s == rest + [last];
    if |s| > 1 {
      DecimalPositive(rest);
      CanonicalIsItoa(rest);
      assert Decimal(s) / 10 == Decimal(rest) && Decimal(s) % 10 == Digit(last);
    } else {
      assert Decimal(rest) == 0;
    }
  }

  lemma {:induction false} DecimalOfPrefix(a: string, b: string)
    ensures Decimal(a) <= Decimal(a + b)
    decreases |b|
  {
    if b == "" {
      assert a + b == a;
    } else {
      var s := a + b;
      assert s[..|s| - 1] == a + b[..|b| - 1];
      DecimalOfPrefix(a, b[..|b| - 1]);
    }
  }
}
