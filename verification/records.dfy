/** The Python dictionaries the extractors build and return: insertion-ordered, one entry per key,
    assignment to a present key replacing its value in place. */
module Records {
  import opened Wrappers
  import opened Seqs
  import Dates

  /** What a field can hold: a string (a regex group or an NLP span), a number (an amount), or a
      `datetime` (the `extract_date` result). The absent value `None` is the `Option` around it. */
  datatype Value = Str(s: string) | Num(x: real) | Stamp(d: Dates.CalendarDate)

  /** Python truthiness of a field value: `None`, `""` and `0` are false, a `datetime` is true. */
  predicate Truthy(v: Option<Value>) {
    match v
    case None => false
    case Some(Str(s)) => |s| > 0
    case Some(Num(x)) => x != 0.0
    case Some(Stamp(_)) => true
  }

  datatype Entry<V> = Entry(key: string, value: V)

  /** A dictionary, its entries in insertion order. */
  type Dict<V> = seq<Entry<V>>

  function Keys<V>(d: Dict<V>): (ks: seq<string>)
    ensures |ks| == |d| && forall i :: 0 <= i < |d| ==> ks[i] == d[i].key
  {
    seq(|d|, i requires 0 <= i < |d| => d[i].key)
  }

  /** `d[k]` when `k in d`. */
  function Find<V>(d: Dict<V>, k: string): (r: Option<V>)
    ensures r.Some? <==> k in Keys(d)
    ensures r.Some? ==> exists i :: 0 <= i < |d| && d[i] == Entry(k, r.value)
  {
    if |d| == 0 then None
    else if d[0].key == k then Some(d[0].value)
    else
      var r := Find(d[1..], k);
      assert Keys(d) == [d[0].key] + Keys(d[1..]);
      assert r.Some? ==> exists i :: 0 <= i < |d| && d[i] == Entry(k, r.value) by {
        if r.Some? {
          var i :| 0 <= i < |d[1..]| && d[1..][i] == Entry(k, r.value);
          assert d[i + 1] == Entry(k, r.value);
        }
      }
      r
  }

  /** `d.get(k)`: the value, or `None` when the key is absent. */
  function Get(d: Dict<Option<Value>>, k: string): Option<Value> {
    match Find(d, k)
    case None => None
    case Some(v) => v
  }

  /** `d[k] = v`. */
  function Put<V>(d: Dict<V>, k: string, v: V): (r: Dict<V>)
    ensures Keys(r) == if k in Keys(d) then Keys(d) else Keys(d) + [k]
    ensures Find(r, k) == Some(v)
    ensures forall k' :: k' != k ==> Find(r, k') == Find(d, k')
  {
    if |d| == 0 then [Entry(k, v)]
    else if d[0].key == k then PutHere(d, k, v)
    else PutLater(d, k, v, Put(d[1..], k, v))
  }

  function PutHere<V>(d: Dict<V>, k: string, v: V): (r: Dict<V>)
    requires |d| > 0 && d[0].key == k
    ensures Keys(r) == Keys(d)
    ensures Find(r, k) == Some(v)
    ensures forall k' :: k' != k ==> Find(r, k') == Find(d, k')
  {
    var r := [Entry(k, v)] + d[1..];
    assert Keys(r) == Keys(d) by {
      forall i | 0 <= i < |d| ensures Keys(r)[i] == Keys(d)[i] { }
    }
    FindHere(d, k, v);
    r
  }

  function PutLater<V>(d: Dict<V>, k: string, v: V, rest: Dict<V>): (r: Dict<V>)
    requires |d| > 0 && d[0].key != k
    requires Keys(rest) == if k in Keys(d[1..]) then Keys(d[1..]) else Keys(d[1..]) + [k]
    requires Find(rest, k) == Some(v)
    requires forall k' :: k' != k ==> Find(rest, k') == Find(d[1..], k')
    ensures Keys(r) == if k in Keys(d) then Keys(d) else Keys(d) + [k]
    ensures Find(r, k) == Some(v)
    ensures forall k' :: k' != k ==> Find(r, k') == Find(d, k')
  {
    PutLaterKeys(d, k, rest);
    FindLater(d, k, v, rest);
    [d[0]] + rest
  }

  lemma PutLaterKeys<V>(d: Dict<V>, k: string, rest: Dict<V>)
    requires |d| > 0 && d[0].key != k
    requires Keys(rest) == if k in Keys(d[1..]) then Keys(d[1..]) else Keys(d[1..]) + [k]
    ensures Keys([d[0]] + rest) == if k in Keys(d) then Keys(d) else Keys(d) + [k]
  {
    KeysCons(d[0], d[1..]);
    KeysCons(d[0], rest);
    assert d == [d[0]] + d[1..];
    if k in Keys(d[1..]) {
      assert k in Keys(d);
    } else {
      assert k !in Keys(d);
      assert [d[0].key] + (Keys(d[1..]) + [k]) == ([d[0].key] + Keys(d[1..])) + [k];
    }
  }

  lemma KeysCons<V>(e: Entry<V>, rest: Dict<V>)
    ensures Keys([e] + rest) == [e.key] + Keys(rest)
  {
  }

  lemma FindCons<V>(e: Entry<V>, rest: Dict<V>, k: string)
    ensures Find([e] + rest, k) == if e.key == k then Some(e.value) else Find(rest, k)
  {
    assert ([e] + rest)[1..] == rest;
  }

  lemma FindHere<V>(d: Dict<V>, k: string, v: V)
    requires |d| > 0 && d[0].key == k
    ensures Find([Entry(k, v)] + d[1..], k) == Some(v)
    ensures forall k' :: k' != k ==> Find([Entry(k, v)] + d[1..], k') == Find(d, k')
  {
    assert d == [d[0]] + d[1..];
    FindCons(Entry(k, v), d[1..], k);
    forall k' | k' != k ensures Find([Entry(k, v)] + d[1..], k') == Find(d, k') {
      FindCons(Entry(k, v), d[1..], k');
      FindCons(d[0], d[1..], k');
    }
  }

  lemma FindLater<V>(d: Dict<V>, k: string, v: V, rest: Dict<V>)
    requires |d| > 0 && d[0].key != k
    requires Find(rest, k) == Some(v)
    requires forall k' :: k' != k ==> Find(rest, k') == Find(d[1..], k')
    ensures Find([d[0]] + rest, k) == Some(v)
    ensures forall k' :: k' != k ==> Find([d[0]] + rest, k') == Find(d, k')
  {
    FindCons(d[0], rest, k);
    forall k' | k' != k ensures Find([d[0]] + rest, k') == Find(d, k') {
      FindCons(d[0], rest, k');
    }
  }

  /** A dictionary's keys are distinct. */
  predicate Distinct<V>(d: Dict<V>) {
    NoDup(Keys(d))
  }

  /** Assigning keeps the keys distinct. */
  lemma PutDistinct<V>(d: Dict<V>, k: string, v: V)
    requires Distinct(d)
    ensures Distinct(Put(d, k, v))
  {
    var ks := Keys(d);
    if k !in ks {
      var ks' := ks + [k];
      forall i, j | 0 <= i < j < |ks'| ensures ks'[i] != ks'[j] {
        if j == |ks| {
          assert ks'[i] == ks[i];
        }
      }
    }
  }

  /** `{f: v(f) for f in fields}` built by assignment in list order. */
  function FromKeys<V>(fields: seq<string>, v: string -> V): (r: Dict<V>)
    ensures Keys(r) == Dedup(fields) && Distinct(r)
    ensures forall k :: k in fields ==> Find(r, k) == Some(v(k))
    ensures forall k :: k !in fields ==> Find(r, k) == None
  {
    if |fields| == 0 then []
    else
      var init := fields[..|fields| - 1];
      var last := fields[|fields| - 1];
      var d := FromKeys(init, v);
      var r := Put(d, last, v(last));
      assert fields == init + [last];
      FromKeysKeys(init, last, d, v(last));
      FromKeysValues(init, last, d, v);
      PutDistinct(d, last, v(last));
      r
  }

  /** Assigning the last field lists the keys of the whole field list once each. */
  lemma {:induction false} FromKeysKeys<V>(init: seq<string>, last: string, d: Dict<V>, x: V)
    requires Keys(d) == Dedup(init)
    ensures Keys(Put(d, last, x)) == Dedup(init + [last])
  {
    assert (init + [last])[..|init|] == init;
  }

  /** Assigning the last field gives every field its value and no other key one. */
  lemma {:induction false} FromKeysValues<V>(init: seq<string>, last: string, d: Dict<V>, v: string -> V)
    requires forall k :: k in init ==> Find(d, k) == Some(v(k))
    requires forall k :: k !in init ==> Find(d, k) == None
    ensures forall k :: k in init + [last] ==> Find(Put(d, last, v(last)), k) == Some(v(k))
    ensures forall k :: k !in init + [last] ==> Find(Put(d, last, v(last)), k) == None
  {
  }

  /** Python's `str()` of a value that is not a number: a string is itself, a `datetime` with no
      time part prints as `YYYY-MM-DD 00:00:00`. */
  function Show(v: Value): (s: string)
    requires !v.Num?
    ensures v.Str? ==> s == v.s
  {
    match v
    case Str(s) => s
    case Stamp(d) => Dates.Iso(d) + " 00:00:00"
  }
}
