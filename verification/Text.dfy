// Decimal numerals, comma-separated lists and optional values shared by the other modules.
module Text {

  datatype Option<+T> = None | Some(value: T)

  datatype Result<+T, +E> = Ok(value: T) | Err(error: E)

  predicate IsDigit(c: char) {
    '0' <= c <= '9'
  }

  predicate AllDigits(s: string) {
    forall i :: 0 <= i < |s| ==> IsDigit(s[i])
  }

  function DigitValue(c: char): (v: nat)
    requires IsDigit(c)
    ensures v < 10
  {
    c as int - '0' as int
  }

  function DigitChar(d: nat): (c: char)
    requires d < 10
    ensures IsDigit(c) && DigitValue(c) == d
  {
    ('0' as int + d) as char
  }

  // The number a string of digits denotes, most significant digit first.
  function NatValue(s: string): nat
    requires AllDigits(s)
  {
    if s == [] then 0 else NatValue(s[..|s| - 1]) * 10 + DigitValue(s[|s| - 1])
  }

  // str(n) for a non-negative integer.
  function ShowNat(n: nat): (s: string)
    ensures s != [] && AllDigits(s)
  {
    if n < 10 then [DigitChar(n)] else ShowNat(n / 10) + [DigitChar(n % 10)]
  }

  // str(x) for any integer.
  function ShowInt(x: int): string {
    if x < 0 then "-" + ShowNat(-x) else ShowNat(x)
  }

  // int(s) on sign-and-digits text; anything else is Python's ValueError.
  function ParseInt(s: string): Option<int> {
    if s != [] && AllDigits(s) then Some(NatValue(s) as int)
    else if |s| > 1 && s[0] == '-' && AllDigits(s[1..]) then Some(-(NatValue(s[1..]) as int))
    else if |s| > 1 && s[0] == '+' && AllDigits(s[1..]) then Some(NatValue(s[1..]) as int)
    else None
  }

  lemma {:induction false} ShowNatValue(n: nat)
    ensures NatValue(ShowNat(n)) == n
  {
    if n < 10 {
    } else {
      ShowNatValue(n / 10);
      assert ShowNat(n)[..|ShowNat(n)| - 1] == ShowNat(n / 10);
    }
  }

  // Decimal text is a faithful encoding of every integer.
  lemma ParseShow(x: int)
    ensures ParseInt(ShowInt(x)) == Some(x)
  {
    if x < 0 {
      ShowNatValue(-x);
      assert ShowInt(x)[1..] == ShowNat(-x);
      assert !IsDigit(ShowInt(x)[0]);
    } else {
      ShowNatValue(x);
    }
  }

  lemma ShowIntInjective(x: int, y: int)
    requires ShowInt(x) == ShowInt(y)
    ensures x == y
  {
    ParseShow(x);
    ParseShow(y);
  }

  // Python's s.split(sep) for a one-character separator: never empty.
  function Split(s: string, sep: char): (parts: seq<string>)
    ensures parts != []
    ensures forall i :: 0 <= i < |parts| ==> sep !in parts[i]
  {
    if s == [] then [[]]
    else
      var rest := Split(s[1..], sep);
      if s[0] == sep then [[]] + rest else [[s[0]] + rest[0]] + rest[1..]
  }

  // sep.join(parts)
  function Join(parts: seq<string>, sep: char): string {
    if parts == [] then []
    else if |parts| == 1 then parts[0]
    else parts[0] + [sep] + Join(parts[1..], sep)
  }

  lemma {:induction false} SplitPrefix(p: string, s: string, sep: char)
    requires sep !in p
    ensures Split(p + s, sep) == [p + Split(s, sep)[0]] + Split(s, sep)[1..]
  {
    if p == [] {
      assert p + s == s;
      assert p + Split(s, sep)[0] == Split(s, sep)[0];
    } else {
      SplitPrefix(p[1..], s, sep);
      assert (p + s)[1..] == p[1..] + s;
      assert [p[0]] + (p[1..] + Split(s, sep)[0]) == p + Split(s, sep)[0];
    }
  }

  // Splitting what was joined gives the parts back.
  lemma {:induction false} SplitJoin(parts: seq<string>, sep: char)
    requires parts != []
    requires forall i :: 0 <= i < |parts| ==> sep !in parts[i]
    ensures Split(Join(parts, sep), sep) == parts
  {
    if |parts| == 1 {
      SplitPrefix(parts[0], [], sep);
      assert parts[0] + [] == parts[0];
    } else {
      var rest := Join(parts[1..], sep);
      SplitJoin(parts[1..], sep);
      SplitPrefix(parts[0], [sep] + rest, sep);
      assert ([sep] + rest)[1..] == rest;
      assert parts[0] + [sep] + rest == parts[0] + ([sep] + rest);
      assert parts[0] + [] == parts[0];
    }
  }
}
