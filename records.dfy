/** Parameter records: the keyword-argument dictionaries the launcher
    collects and merges. A Python dict keeps its keys distinct and remembers
    the order in which they were first inserted; both matter here, because
    the order decides the nesting of result directories and the order of
    command-line flags. */
module Records {
  import opened Wrappers
  import opened Text

  /** A parameter value of one of the scalar kinds experiments pass. */
  datatype Value = IntV(i: int) | BoolV(b: bool) | StrV(s: string)

  /** Python's `str(value)`. */
  function Str(v: Value): string {
    match v
    case IntV(i) => IntToString(i)
    case BoolV(b) => if b then "True" else "False"
    case StrV(s) => s
  }

  datatype Entry = Entry(key: string, value: Value)

  /** No key occurs twice. */
  predicate UniqueKeys(r: seq<Entry>) {
    r == [] || (r[0].key !in KeySet(r[1..]) && UniqueKeys(r[1..]))
  }

  /** A dict: entries in insertion order, no key twice. */
  type Record = r: seq<Entry> | UniqueKeys(r) witness []

  function KeySet(r: seq<Entry>): set<string> {
    if r == [] then {} else {r[0].key} + KeySet(r[1..])
  }

  lemma KeySetCons(e: Entry, r: seq<Entry>)
    ensures KeySet([e] + r) == {e.key} + KeySet(r)
  {
    assert ([e] + r)[1..] == r;
  }

  /** `d.get(k)`: the value stored under `k`, if any. */
  function Lookup(r: seq<Entry>, k: string): (v: Option<Value>)
    ensures v.Some? <==> k in KeySet(r)
  {
    if r == [] then None
    else if r[0].key == k then Some(r[0].value)
    else Lookup(r[1..], k)
  }

  /** `d[k] = v`: an existing key keeps its place and takes the new value;
      a new key goes at the end. */
  function Update(r: Record, k: string, v: Value): (u: Record)
    ensures KeySet(u) == KeySet(r) + {k}
    ensures k !in KeySet(r) ==> u == r + [Entry(k, v)]
    ensures k in KeySet(r) ==> |u| == |r|
  {
    if r == [] then
      assert [Entry(k, v)][1..] == [];
      [Entry(k, v)]
    else if r[0].key == k then
      KeySetCons(Entry(k, v), r[1..]);
      [Entry(k, v)] + r[1..]
    else
      var tail := Update(r[1..], k, v);
      KeySetCons(r[0], tail);
      assert r == [r[0]] + r[1..];
      [r[0]] + tail
  }

  /** Writing an existing key leaves every key in its place. */
  lemma {:induction false} UpdateKeepsOrder(r: Record, k: string, v: Value)
    requires k in KeySet(r)
    ensures forall i :: 0 <= i < |r| ==> Update(r, k, v)[i].key == r[i].key
  {
    if r[0].key != k {
      UpdateKeepsOrder(r[1..], k, v);
      var u := Update(r, k, v);
      assert forall i :: 1 <= i < |r| ==> u[i] == Update(r[1..], k, v)[i - 1];
    }
  }

  /** After `d[k] = v` the key `k` holds `v` and every other key holds what
      it held before. */
  lemma {:induction false} UpdateLookup(r: Record, k: string, v: Value, k': string)
    ensures Lookup(Update(r, k, v), k') == if k' == k then Some(v) else Lookup(r, k')
  {
    if r != [] && r[0].key != k {
      UpdateLookup(r[1..], k, v, k');
    }
  }

  /** `d.update(other)`: the entries of `other` written into `d` one by
      one, in `other`'s order. */
  function UpdateAll(r: Record, other: Record): Record
    decreases |other|
  {
    if other == [] then r
    else UpdateAll(Update(r, other[0].key, other[0].value), other[1..])
  }

  /** After `d.update(other)` a key holds `other`'s value when `other` has
      it, and its earlier value otherwise: the later writer wins. */
  lemma {:induction false} UpdateAllLookup(r: Record, other: Record, k: string)
    ensures Lookup(UpdateAll(r, other), k) == if k in KeySet(other) then Lookup(other, k) else Lookup(r, k)
    decreases |other|
  {
    if other != [] {
      UpdateAllLookup(Update(r, other[0].key, other[0].value), other[1..], k);
      UpdateLookup(r, other[0].key, other[0].value, k);
    }
  }

  /** `d.update(other)` has exactly the keys of both, and the keys `d`
      already had keep their positions at the front. */
  lemma {:induction false} UpdateAllKeys(r: Record, other: Record)
    ensures KeySet(UpdateAll(r, other)) == KeySet(r) + KeySet(other)
    ensures |UpdateAll(r, other)| >= |r|
    ensures forall i :: 0 <= i < |r| ==> UpdateAll(r, other)[i].key == r[i].key
    decreases |other|
  {
    if other != [] {
      var first := Update(r, other[0].key, other[0].value);
      UpdateAllKeys(first, other[1..]);
      if other[0].key !in KeySet(r) {
        assert forall i :: 0 <= i < |r| ==> first[i] == r[i];
      } else {
        UpdateKeepsOrder(r, other[0].key, other[0].value);
      }
    }
  }

  /** `del d[k]`: the other entries keep their order. */
  function Remove(r: Record, k: string): (u: Record)
    ensures KeySet(u) == KeySet(r) - {k}
  {
    if r == [] then []
    else if r[0].key == k then r[1..]
    else
      var tail := Remove(r[1..], k);
      KeySetCons(r[0], tail);
      [r[0]] + tail
  }

  /** After `del d[k]` the key `k` is absent and every other key holds what
      it held before. */
  lemma {:induction false} RemoveLookup(r: Record, k: string, k': string)
    ensures Lookup(Remove(r, k), k') == if k' == k then None else Lookup(r, k')
  {
    if r != [] && r[0].key != k {
      RemoveLookup(r[1..], k, k');
    }
  }

  /** Writing a key twice leaves what writing it once with the second value
      leaves. */
  lemma {:induction false} UpdateTwice(r: Record, k: string, v: Value, w: Value)
    ensures Update(Update(r, k, v), k, w) == Update(r, k, w)
  {
    if r != [] && r[0].key != k {
      UpdateTwice(r[1..], k, v, w);
    }
  }

  /** Writing two different keys that are both present already gives the
      same dict in either order. */
  lemma {:induction false} UpdateSwap(r: Record, k1: string, v1: Value, k2: string, v2: Value)
    requires k1 != k2 && k1 in KeySet(r) && k2 in KeySet(r)
    ensures Update(Update(r, k1, v1), k2, v2) == Update(Update(r, k2, v2), k1, v1)
  {
    if r[0].key != k1 && r[0].key != k2 {
      UpdateSwap(r[1..], k1, v1, k2, v2);
    }
  }

  /** A dict object whose entries a caller shares with the code that
      changes them, as `run_experiment` changes the `args` it is given. */
  class Dict {
    var items: Record

    constructor (r: Record)
      ensures items == r
    {
      items := r;
    }

    /** `d[k] = v` */
    method SetItem(k: string, v: Value)
      modifies this
      ensures items == Update(old(items), k, v)
    {
      items := Update(items, k, v);
    }

    /** `d.update(other)`, one entry at a time. */
    method UpdateFrom(other: Record)
      modifies this
      ensures items == UpdateAll(old(items), other)
    {
      var i := 0;
      while i < |other|
        invariant 0 <= i <= |other| && UniqueKeys(other[i..])
        invariant UpdateAll(items, other[i..]) == UpdateAll(old(items), other)
      {
        assert other[i..][1..] == other[i + 1..];
        items := Update(items, other[i].key, other[i].value);
        i := i + 1;
      }
    }

    /** `del d[k]`; Python raises KeyError when `k` is absent, which is
        reported here as `false` with nothing changed. */
    method DelItem(k: string) returns (found: bool)
      modifies this
      ensures found == (k in KeySet(old(items)))
      ensures items == if found then Remove(old(items), k) else old(items)
    {
      found := Lookup(items, k).Some?;
      if found {
        items := Remove(items, k);
      }
    }
  }
}
