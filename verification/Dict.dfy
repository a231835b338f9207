// Insertion-ordered dictionaries with text keys, and JSON values built from them.
module Dict {
  import opened Text

  type Dict<V> = seq<(string, V)>

  function Find<V>(d: Dict<V>, k: string): Option<V> {
    if d == [] then None
    else if d[|d| - 1].0 == k then Some(d[|d| - 1].1)
    else Find(d[..|d| - 1], k)
  }

  predicate Has<V>(d: Dict<V>, k: string) {
    Find(d, k).Some?
  }

  function Replace<V>(d: Dict<V>, k: string, v: V): (r: Dict<V>)
    ensures |r| == |d|
    ensures forall i :: 0 <= i < |d| ==> r[i].0 == d[i].0 && (r[i] == (k, v) || r[i] == d[i])
  {
    if d == [] then []
    else if d[|d| - 1].0 == k then d[..|d| - 1] + [(k, v)]
    else Replace(d[..|d| - 1], k, v) + [d[|d| - 1]]
  }

  // d[k] = v: replaces in place, or appends.
  function Put<V>(d: Dict<V>, k: string, v: V): (r: Dict<V>)
    ensures forall e :: e in r ==> e == (k, v) || e in d
  {
    if Has(d, k) then Replace(d, k, v) else d + [(k, v)]
  }

  ghost predicate DistinctKeys<V>(d: Dict<V>) {
    forall i, j :: 0 <= i < j < |d| ==> d[i].0 != d[j].0
  }

  lemma {:induction false} FindReplace<V>(d: Dict<V>, k: string, v: V, k': string)
    ensures Find(Replace(d, k, v), k') == if k' == k && Has(d, k) then Some(v) else Find(d, k')
  {
    if d == [] {
    } else {
      var init := d[..|d| - 1];
      FindReplace(init, k, v, k');
      if d[|d| - 1].0 == k {
        assert Replace(d, k, v)[..|d| - 1] == init;
      } else {
        assert Replace(d, k, v)[..|d| - 1] == Replace(init, k, v);
      }
    }
  }

  lemma FindPut<V>(d: Dict<V>, k: string, v: V, k': string)
    ensures Find(Put(d, k, v), k') == if k' == k then Some(v) else Find(d, k')
  {
    FindReplace(d, k, v, k');
    assert (d + [(k, v)])[..|d|] == d;
  }

  lemma {:induction false} NotFound<V>(d: Dict<V>, k: string)
    ensures Find(d, k).None? <==> forall i :: 0 <= i < |d| ==> d[i].0 != k
  {
    if d == [] {
    } else {
      NotFound(d[..|d| - 1], k);
      assert forall i :: 0 <= i < |d| - 1 ==> d[i] == d[..|d| - 1][i];
    }
  }

  lemma PutKeys<V>(d: Dict<V>, k: string, v: V)
    requires DistinctKeys(d)
    ensures DistinctKeys(Put(d, k, v))
  {
    NotFound(d, k);
  }

  lemma PutNew<V>(d: Dict<V>, k: string, v: V)
    requires forall i :: 0 <= i < |d| ==> d[i].0 != k
    ensures Put(d, k, v) == d + [(k, v)]
  {
    NotFound(d, k);
  }

  lemma {:induction false} FindAt<V>(d: Dict<V>, i: nat)
    requires DistinctKeys(d) && i < |d|
    ensures Find(d, d[i].0) == Some(d[i].1)
  {
    if i == |d| - 1 {
    } else {
      FindAt(d[..|d| - 1], i);
    }
  }

  lemma {:induction false} FoundAt<V>(d: Dict<V>, k: string) returns (i: nat)
    requires Has(d, k)
    ensures i < |d| && d[i].0 == k && Find(d, k) == Some(d[i].1)
  {
    if d[|d| - 1].0 == k {
      i := |d| - 1;
    } else {
      i := FoundAt(d[..|d| - 1], k);
    }
  }

  // Two dictionaries with the same keys in the same order find a key at the same place.
  lemma {:induction false} FindAlike<A, B>(d: Dict<A>, e: Dict<B>, k: string) returns (i: nat)
    requires |d| == |e| && forall j :: 0 <= j < |d| ==> d[j].0 == e[j].0
    ensures Has(d, k) <==> Has(e, k)
    ensures Has(d, k) ==> i < |d| && Find(d, k) == Some(d[i].1) && Find(e, k) == Some(e[i].1)
  {
    if d == [] || d[|d| - 1].0 == k {
      i := if d == [] then 0 else |d| - 1;
    } else {
      i := FindAlike(d[..|d| - 1], e[..|d| - 1], k);
    }
  }

  datatype Json =
    | JNull
    | JBool(b: bool)
    | JInt(i: int)
    | JStr(s: string)
    | JArr(elems: seq<Json>)
    | JObj(fields: Dict<Json>)

  // int(x) on a decoded JSON value: None stands for the TypeError or ValueError it raises.
  function IntOf(j: Json): Option<int> {
    match j
    case JInt(i) => Some(i)
    case JBool(b) => Some(if b then 1 else 0)
    case JStr(s) => ParseInt(s)
    case _ => None
  }

  // A JSON value is read as x exactly if it is x, its text, or true for 1 and false for 0.
  ghost predicate ReadsAs(j: Json, x: int) {
    || j == JInt(x) || (j == JBool(true) && x == 1) || (j == JBool(false) && x == 0)
    || (j.JStr? && ParseInt(j.s) == Some(x))
  }

  ghost predicate Readable(j: Json) {
    exists x :: ReadsAs(j, x)
  }

  lemma IntOfReads(j: Json, x: int)
    ensures IntOf(j) == Some(x) <==> ReadsAs(j, x)
  {
  }

  lemma IntReadable(j: Json)
    ensures IntOf(j).Some? <==> Readable(j)
  {
    if IntOf(j).Some? {
      IntOfReads(j, IntOf(j).value);
    }
    if x :| ReadsAs(j, x) {
      IntOfReads(j, x);
    }
  }

  lemma {:induction false} IntsOfRead(xs: seq<Json>, t: seq<int>)
    ensures IntsOf(xs) == Some(t) <==> |t| == |xs| && forall i :: 0 <= i < |xs| ==> ReadsAs(xs[i], t[i])
    ensures IntsOf(xs).Some? <==> forall i :: 0 <= i < |xs| ==> Readable(xs[i])
  {
    if xs == [] {
    } else {
      var n := |xs| - 1;
      IntReadable(xs[n]);
      if |t| == |xs| {
        IntsOfRead(xs[..n], t[..n]);
        IntOfReads(xs[n], t[n]);
        assert t == t[..n] + [t[n]];
      } else {
        IntsOfRead(xs[..n], []);
      }
    }
  }

  // [int(x) for x in xs]
  function IntsOf(xs: seq<Json>): (r: Option<seq<int>>)
    ensures r.Some? ==> |r.value| == |xs|
  {
    if xs == [] then Some([])
    else
      var init := IntsOf(xs[..|xs| - 1]);
      var last := IntOf(xs[|xs| - 1]);
      if init.Some? && last.Some? then Some(init.value + [last.value]) else None
  }

  function JInts(xs: seq<int>): Json {
    JArr(seq(|xs|, i requires 0 <= i < |xs| => JInt(xs[i])))
  }

  lemma {:induction false} IntsRoundTrip(xs: seq<int>)
    ensures IntsOf(JInts(xs).elems) == Some(xs)
  {
    if xs == [] {
    } else {
      IntsRoundTrip(xs[..|xs| - 1]);
      assert JInts(xs).elems[..|xs| - 1] == JInts(xs[..|xs| - 1]).elems;
      assert xs == xs[..|xs| - 1] + [xs[|xs| - 1]];
    }
  }
}
