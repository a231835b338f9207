// The text forms of CPU sets: the comma-separated list given to taskset and read back from the
// cpuset, and the hexadecimal affinity mask.
module CpuText {
  import opened Text
  import opened Seqs

  // ---------- CPU lists ----------

  // range(lo, hi + 1)
  function Inclusive(lo: int, hi: int): seq<int> {
    Range(lo, if lo <= hi then hi - lo + 1 else 0)
  }

  // Every CPU from lo to hi, in order, and no other.
  lemma InclusiveHas(lo: int, hi: int, x: int)
    ensures x in Inclusive(lo, hi) <==> lo <= x <= hi
    ensures forall i, j :: 0 <= i < j < |Inclusive(lo, hi)| ==> Inclusive(lo, hi)[i] < Inclusive(lo, hi)[j]
  {
    if lo <= x <= hi {
      assert Inclusive(lo, hi)[x - lo] == x;
    }
  }

  // What one comma-separated part denotes; None is a ValueError.
  function Part(s: string): Option<seq<int>> {
    if '-' in s then
      var ends := Split(s, '-');
      if |ends| != 2 then None
      else
        var lo, hi := ParseInt(ends[0]), ParseInt(ends[1]);
        if lo.None? || hi.None? then None else Some(Inclusive(lo.value, hi.value))
    else
      var cpu := ParseInt(s);
      if cpu.None? then None else Some([cpu.value])
  }

  function Parts(parts: seq<string>): Option<seq<int>> {
    if parts == [] then Some([])
    else
      var front, last := Parts(parts[..|parts| - 1]), Part(parts[|parts| - 1]);
      if front.None? || last.None? then None else Some(front.value + last.value)
  }

  lemma {:induction false} PartsFail(parts: seq<string>, n: nat)
    requires n <= |parts| && Parts(parts[..n]).None?
    ensures Parts(parts).None?
    decreases |parts| - n
  {
    if n == |parts| {
      assert parts[..n] == parts;
    } else {
      assert parts[..n + 1][..n] == parts[..n];
      PartsFail(parts, n + 1);
    }
  }

  method ExpandCpuList(s: string) returns (cpus: Option<seq<int>>)
    ensures cpus == Parts(Split(s, ','))
  {
    var parts := Split(s, ',');
    var list: seq<int> := [];
    for i := 0 to |parts|
      invariant Parts(parts[..i]) == Some(list)
    {
      assert parts[..i + 1][..i] == parts[..i];
      var part := Part(parts[i]);
      if part.None? {
        PartsFail(parts, i + 1);
        return None;
      }
      list := list + part.value;
    }
    assert parts[..|parts|] == parts;
    cpus := Some(list);
  }

  // ---------- What the lists mean ----------

  // The items a cpuset list is written from.
  datatype Item = Single(cpu: nat) | Span(lo: nat, hi: nat)

  function Render(item: Item): string {
    match item
    case Single(cpu) => ShowNat(cpu)
    case Span(lo, hi) => ShowNat(lo) + "-" + ShowNat(hi)
  }

  function Meaning(item: Item): seq<int> {
    match item
    case Single(cpu) => [cpu]
    case Span(lo, hi) => Inclusive(lo, hi)
  }

  function RenderAll(items: seq<Item>): (r: seq<string>)
    ensures |r| == |items|
  {
    seq(|items|, i requires 0 <= i < |items| => Render(items[i]))
  }

  function Meanings(items: seq<Item>): seq<int> {
    if items == [] then [] else Meanings(items[..|items| - 1]) + Meaning(items[|items| - 1])
  }

  lemma DigitsOnly(s: string, c: char)
    requires AllDigits(s) && !IsDigit(c)
    ensures c !in s
  {
  }

  lemma ParseNat(n: nat)
    ensures '-' !in ShowNat(n) && ',' !in ShowNat(n) && ParseInt(ShowNat(n)) == Some(n as int)
  {
    DigitsOnly(ShowNat(n), '-');
    DigitsOnly(ShowNat(n), ',');
    ParseShow(n);
  }

  lemma PartOfItem(item: Item)
    ensures ',' !in Render(item) && Part(Render(item)) == Some(Meaning(item))
  {
    match item
    case Single(cpu) =>
      ParseNat(cpu);
    case Span(lo, hi) =>
      ParseNat(lo);
      ParseNat(hi);
      var ends := [ShowNat(lo), ShowNat(hi)];
      assert ends[1..] == [ShowNat(hi)];
      assert Render(item) == Join(ends, '-');
      SplitJoin(ends, '-');
      assert Render(item)[|ShowNat(lo)|] == '-';
  }

  lemma {:induction false} PartsOfItems(items: seq<Item>)
    ensures Parts(RenderAll(items)) == Some(Meanings(items))
  {
    if items == [] {
    } else {
      var n := |items| - 1;
      PartsOfItems(items[..n]);
      PartOfItem(items[n]);
      assert RenderAll(items)[..n] == RenderAll(items[..n]);
    }
  }

  // Every list of CPUs and ranges is read as it was meant.
  lemma ExpandRendered(items: seq<Item>)
    requires items != []
    ensures Parts(Split(Join(RenderAll(items), ','), ',')) == Some(Meanings(items))
  {
    forall i | 0 <= i < |items|
      ensures ',' !in RenderAll(items)[i]
    {
      PartOfItem(items[i]);
    }
    SplitJoin(RenderAll(items), ',');
    PartsOfItems(items);
  }

  // ",".join(map(str, cpus))
  function BindList(cpus: seq<int>): string {
    Join(Shown(cpus), ',')
  }

  function Shown(cpus: seq<int>): (r: seq<string>)
    ensures |r| == |cpus|
  {
    seq(|cpus|, i requires 0 <= i < |cpus| => ShowInt(cpus[i]))
  }

  lemma NoComma(x: int)
    ensures ',' !in ShowInt(x)
  {
    ParseNat(if x < 0 then -x else x);
  }

  lemma MinusSplits(s: string)
    requires '-' !in s
    ensures Split(['-'] + s, '-') == ["", s]
  {
    var ends := ["", s];
    assert ends[1..] == [s];
    assert Join(ends, '-') == "" + ['-'] + s == ['-'] + s;
    SplitJoin(ends, '-');
  }

  // A CPU number is read back exactly when it is not negative; the minus sign reads as a range.
  lemma PartOfShown(x: int)
    ensures Part(ShowInt(x)) == if x >= 0 then Some([x]) else None
  {
    ParseNat(if x < 0 then -x else x);
    if x < 0 {
      MinusSplits(ShowNat(-x));
      assert ShowInt(x)[0] == '-';
    }
  }

  predicate NonNegative(cpus: seq<int>) {
    forall i :: 0 <= i < |cpus| ==> cpus[i] >= 0
  }

  lemma NonNegativeLast(cpus: seq<int>, n: nat)
    requires |cpus| == n + 1
    ensures NonNegative(cpus) <==> NonNegative(cpus[..n]) && cpus[n] >= 0
    ensures cpus == cpus[..n] + [cpus[n]]
    ensures Shown(cpus)[..n] == Shown(cpus[..n])
  {
    assert NonNegative(cpus[..n]) && cpus[n] >= 0 ==> forall i :: 0 <= i < n ==> cpus[i] == cpus[..n][i];
  }

  lemma {:induction false} PartsOfShown(cpus: seq<int>)
    ensures Parts(Shown(cpus)) == if NonNegative(cpus) then Some(cpus) else None
  {
    if cpus == [] {
    } else {
      var n := |cpus| - 1;
      PartsOfShown(cpus[..n]);
      PartOfShown(cpus[n]);
      NonNegativeLast(cpus, n);
    }
  }

  // Expanding the list that bind builds gives back the same CPUs, exactly when none is negative.
  lemma BindRoundTrip(cpus: seq<int>)
    requires cpus != []
    ensures Parts(Split(BindList(cpus), ',')) == Some(cpus) <==> NonNegative(cpus)
  {
    forall i | 0 <= i < |cpus|
      ensures ',' !in Shown(cpus)[i]
    {
      NoComma(cpus[i]);
    }
    SplitJoin(Shown(cpus), ',');
    PartsOfShown(cpus);
  }

  // ---------- Affinity masks ----------

  const MASK_BIT := 32
  const WORD := 0x1_0000_0000

  // The value of a hexadecimal digit; None for any other character.
  function HexDigit(c: char): Option<nat> {
    if '0' <= c <= '9' then Some(c as int - '0' as int)
    else if 'a' <= c <= 'f' then Some(c as int - 'a' as int + 10)
    else None
  }

  function HexChar(d: nat): (c: char)
    requires d < 16
    ensures HexDigit(c) == Some(d)
  {
    if d < 10 then ('0' as int + d) as char else ('a' as int + d - 10) as char
  }

  function HexValue(s: string): Option<nat> {
    if s == [] then Some(0)
    else
      var front, last := HexValue(s[..|s| - 1]), HexDigit(s[|s| - 1]);
      if front.None? || last.None? then None else Some(front.value * 16 + last.value)
  }

  function ShowHex(v: nat): (s: string)
    ensures s != []
  {
    if v < 16 then [HexChar(v)] else ShowHex(v / 16) + [HexChar(v % 16)]
  }

  // f"{v:08x}"
  function Hex8(v: nat): string {
    var s := ShowHex(v);
    Zeroes(if |s| < 8 then 8 - |s| else 0) + s
  }

  function Zeroes(n: nat): (s: string)
    ensures |s| == n
  {
    seq(n, _ => '0')
  }

  function Pow2(n: nat): (r: nat)
    ensures r > 0
  {
    if n == 0 then 1 else 2 * Pow2(n - 1)
  }

  // Comma-separated 32-bit groups, most significant first.
  function ReadGroups(parts: seq<string>): Option<nat> {
    if parts == [] then Some(0)
    else
      var front, last := ReadGroups(parts[..|parts| - 1]), HexValue(parts[|parts| - 1]);
      if front.None? || last.None? || last.value >= WORD then None else Some(front.value * WORD + last.value)
  }

  function ReadMask(s: string): Option<nat> {
    ReadGroups(Split(s, ','))
  }

  // The text after the first g groups of zeroes were added.
  ghost function MaskText(value: nat, g: nat): string {
    if g == 0 then Hex8(value) else MaskText(value, g - 1) + "," + Zeroes(MASK_BIT / 4)
  }

  // One group of eight digits per 32 CPUs, and as a number exactly the bit of the CPU.
  method CpuToMask(cpu: nat) returns (mask: string)
    ensures ReadMask(mask) == Some(Pow2(cpu))
    ensures |Split(mask, ',')| == cpu / MASK_BIT + 1
    ensures EightEach(Split(mask, ','))
  {
    var group, bit := cpu / MASK_BIT, cpu % MASK_BIT;
    var value := Pow2(bit);
    mask := Hex8(value);
    for k := 0 to group
      invariant mask == MaskText(value, k)
    {
      mask := mask + "," + Zeroes(MASK_BIT / 4);
    }
    WordIsPow2();
    Pow2Below(bit, MASK_BIT);
    MaskReads(value, group);
    MaskShape(value, group);
    ShiftedPow2(bit, group);
  }

  lemma {:induction false} HexOfZeroes(n: nat, s: string)
    ensures HexValue(Zeroes(n) + s) == HexValue(s)
    decreases n + |s|
  {
    if s != [] {
      HexOfZeroes(n, s[..|s| - 1]);
      assert (Zeroes(n) + s)[..n + |s| - 1] == Zeroes(n) + s[..|s| - 1];
    } else if n > 0 {
      HexOfZeroes(n - 1, s);
      assert (Zeroes(n) + s)[..n - 1] == Zeroes(n - 1) + s;
    }
  }

  lemma HexSnoc(s: string, n: nat, d: nat)
    requires HexValue(s) == Some(n) && d < 16
    ensures HexValue(s + [HexChar(d)]) == Some(n * 16 + d)
  {
    assert (s + [HexChar(d)])[..|s|] == s;
  }

  lemma {:induction false} HexShown(v: nat)
    ensures HexValue(ShowHex(v)) == Some(v)
  {
    if v < 16 {
      HexSnoc([], 0, v);
      assert [] + [HexChar(v)] == [HexChar(v)];
    } else {
      HexShown(v / 16);
      HexSnoc(ShowHex(v / 16), v / 16, v % 16);
    }
  }

  lemma HexRoundTrip(v: nat)
    ensures HexValue(Hex8(v)) == Some(v)
  {
    HexShown(v);
    var s := ShowHex(v);
    HexOfZeroes(if |s| < 8 then 8 - |s| else 0, s);
  }

  lemma {:induction false} HexHasNoComma(v: nat)
    ensures ',' !in ShowHex(v)
  {
    if v < 16 {
    } else {
      HexHasNoComma(v / 16);
    }
  }

  // A last part without separator is split off whole.
  lemma {:induction false} SplitLast(a: string, b: string, sep: char)
    requires sep !in b
    ensures Split(a + [sep] + b, sep) == Split(a, sep) + [b]
  {
    if a == [] {
      assert a + [sep] + b == [sep] + b;
      assert ([sep] + b)[1..] == b;
      SplitPrefix(b, [], sep);
      assert b + [] == b;
    } else {
      SplitLast(a[1..], b, sep);
      assert (a + [sep] + b)[1..] == a[1..] + [sep] + b;
    }
  }

  lemma {:induction false} Pow2Sum(a: nat, b: nat)
    ensures Pow2(a + b) == Pow2(a) * Pow2(b)
  {
    if b == 0 {
    } else {
      Pow2Sum(a, b - 1);
      assert a + b - 1 == a + (b - 1);
    }
  }

  lemma WordIsPow2()
    ensures Pow2(32) == WORD
  {
    assert Pow2(4) == 16;
    Pow2Sum(4, 4);
    Pow2Sum(8, 8);
    Pow2Sum(16, 16);
  }

  lemma {:induction false} Pow2Below(a: nat, b: nat)
    requires a < b
    ensures Pow2(a) < Pow2(b)
  {
    if a == b - 1 {
    } else {
      Pow2Below(a, b - 1);
    }
  }

  lemma {:induction false} HexWidth(v: nat, n: nat)
    requires n >= 1 && v < Pow2(4 * n)
    ensures |ShowHex(v)| <= n
  {
    if v < 16 {
    } else {
      assert Pow2(4) == 16;
      Pow2Sum(4 * (n - 1), 4);
      HexWidth(v / 16, n - 1);
    }
  }

  lemma ReadLast(parts: seq<string>, p: string, high: nat, low: nat)
    requires ReadGroups(parts) == Some(high) && HexValue(p) == Some(low) && low < WORD
    ensures ReadGroups(parts + [p]) == Some(high * WORD + low)
  {
    assert (parts + [p])[..|parts|] == parts;
  }

  lemma HexGroup(value: nat)
    requires value < WORD
    ensures ',' !in Hex8(value) && |Hex8(value)| == 8
  {
    WordIsPow2();
    HexWidth(value, 8);
    HexHasNoComma(value);
  }

  lemma FirstGroup(value: nat)
    requires value < WORD
    ensures Split(Hex8(value), ',') == [Hex8(value)]
    ensures ReadMask(Hex8(value)) == Some(value)
  {
    var s := Hex8(value);
    HexGroup(value);
    SplitPrefix(s, [], ',');
    assert s + [] == s;
    HexRoundTrip(value);
    ReadLast([], s, 0, value);
    assert [] + [s] == [s];
  }

  lemma NextGroup(m: string, v: nat)
    requires ReadMask(m) == Some(v)
    ensures Split(m + "," + Zeroes(8), ',') == Split(m, ',') + [Zeroes(8)]
    ensures ReadMask(m + "," + Zeroes(8)) == Some(v * WORD)
  {
    SplitLast(m, Zeroes(8), ',');
    HexOfZeroes(8, []);
    assert Zeroes(8) + [] == Zeroes(8);
    ReadLast(Split(m, ','), Zeroes(8), v, 0);
  }

  ghost function Shifted(value: nat, g: nat): nat {
    if g == 0 then value else Shifted(value, g - 1) * WORD
  }

  lemma {:induction false} MaskReads(value: nat, g: nat)
    requires value < WORD
    ensures ReadMask(MaskText(value, g)) == Some(Shifted(value, g))
  {
    if g == 0 {
      FirstGroup(value);
    } else {
      MaskReads(value, g - 1);
      NextGroup(MaskText(value, g - 1), Shifted(value, g - 1));
    }
  }

  predicate EightEach(parts: seq<string>) {
    forall i :: 0 <= i < |parts| ==> |parts[i]| == 8
  }

  lemma {:induction false} MaskShape(value: nat, g: nat)
    requires value < WORD
    ensures |Split(MaskText(value, g), ',')| == g + 1 && EightEach(Split(MaskText(value, g), ','))
  {
    if g == 0 {
      HexGroup(value);
      FirstGroup(value);
    } else {
      var before := MaskText(value, g - 1);
      MaskShape(value, g - 1);
      SplitLast(before, Zeroes(8), ',');
      assert MaskText(value, g) == before + [','] + Zeroes(8);
    }
  }

  lemma {:induction false} ShiftedPow2(bit: nat, g: nat)
    ensures Shifted(Pow2(bit), g) == Pow2(32 * g + bit)
  {
    if g == 0 {
    } else {
      ShiftedPow2(bit, g - 1);
      WordIsPow2();
      Pow2Sum(32 * (g - 1) + bit, 32);
      assert 32 * (g - 1) + bit + 32 == 32 * g + bit;
    }
  }
}
