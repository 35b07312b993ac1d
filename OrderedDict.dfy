/**
 * Python's insertion-ordered `dict` with string keys, as a sequence of
 * (key, value) entries.
 *
 * `d[k] = v` replaces the value of an existing key in place (the key keeps its
 * position) and appends a new key at the end; `k in d` and `d[k]` look a key up.
 * Every dictionary the program builds has distinct keys (DistinctKeys); each
 * operation below keeps that.
 */
module OrderedDict {
  import opened Wrappers

  /** The keys of `d` in insertion order (`list(d.keys())`). */
  function Keys<V>(d: seq<(string, V)>): (ks: seq<string>)
    ensures |ks| == |d|
    ensures forall i :: 0 <= i < |d| ==> ks[i] == d[i].0
  {
    seq(|d|, i requires 0 <= i < |d| => d[i].0)
  }

  predicate Distinct(xs: seq<string>)
  {
    forall i, j :: 0 <= i < j < |xs| ==> xs[i] != xs[j]
  }

  predicate DistinctKeys<V>(d: seq<(string, V)>)
  {
    Distinct(Keys(d))
  }

  /**
   * `d[k]` when `k in d`. The entry found is the last one with key `k`
   * (LookupFindsLast); in a dictionary with distinct keys it is the only one
   * (LookupAt).
   */
  function Lookup<V>(d: seq<(string, V)>, k: string): (r: Option<V>)
    ensures r.None? <==> k !in Keys(d)
  {
    if d == [] then None
    else if d[|d| - 1].0 == k then Some(d[|d| - 1].1)
    else
      KeysAppend(d[..|d| - 1], [d[|d| - 1]]);
      assert d == d[..|d| - 1] + [d[|d| - 1]];
      Lookup(d[..|d| - 1], k)
  }

  /** The entry of an existing key `k` gets the value `v`; its position is kept. */
  function Replace<V>(d: seq<(string, V)>, k: string, v: V): (r: seq<(string, V)>)
    requires k in Keys(d)
    ensures Keys(r) == Keys(d)
  {
    var n := |d| - 1;
    KeysAppend(d[..n], [d[n]]);
    assert d == d[..n] + [d[n]];
    if d[n].0 == k then
      KeysAppend(d[..n], [(k, v)]);
      d[..n] + [(k, v)]
    else
      var r' := Replace(d[..n], k, v);
      KeysAppend(r', [d[n]]);
      r' + [d[n]]
  }

  /** `d[k] = v`: replace the value of an existing key, or append a new entry. */
  function Put<V>(d: seq<(string, V)>, k: string, v: V): (r: seq<(string, V)>)
    ensures Keys(r) == if k in Keys(d) then Keys(d) else Keys(d) + [k]
    ensures DistinctKeys(d) ==> DistinctKeys(r)
  {
    if k in Keys(d) then Replace(d, k, v)
    else
      KeysAppend(d, [(k, v)]);
      d + [(k, v)]
  }

  /** The assignments `d[kvs[0].0] = kvs[0].1`, ..., done in order. */
  function PutAll<V>(d: seq<(string, V)>, kvs: seq<(string, V)>): (r: seq<(string, V)>)
    ensures DistinctKeys(d) ==> DistinctKeys(r)
  {
    if kvs == [] then d
    else
      var n := |kvs| - 1;
      Put(PutAll(d, kvs[..n]), kvs[n].0, kvs[n].1)
  }

  /** One more assignment at the end. */
  lemma PutAllSnoc<V>(d: seq<(string, V)>, kvs: seq<(string, V)>, k: string, v: V)
    ensures PutAll(d, kvs + [(k, v)]) == Put(PutAll(d, kvs), k, v)
  {
    assert (kvs + [(k, v)])[..|kvs|] == kvs;
  }

  /** `xs` with every element after its first occurrence removed. */
  function Dedup(xs: seq<string>): (r: seq<string>)
    ensures Distinct(r)
    ensures forall x :: x in r <==> x in xs
    ensures Distinct(xs) ==> r == xs
  {
    if xs == [] then []
    else
      var n := |xs| - 1;
      if xs[n] in xs[..n] then Dedup(xs[..n])
      else
        assert xs == xs[..n] + [xs[n]];
        Dedup(xs[..n]) + [xs[n]]
  }

  /** The keys of a concatenation. */
  lemma KeysAppend<V>(a: seq<(string, V)>, b: seq<(string, V)>)
    ensures Keys(a + b) == Keys(a) + Keys(b)
  {
    forall i | 0 <= i < |a| + |b|
      ensures Keys(a + b)[i] == (Keys(a) + Keys(b))[i]
    {
      if i < |a| {
        assert (a + b)[i] == a[i];
      } else {
        assert (a + b)[i] == b[i - |a|];
      }
    }
  }

  /** Lookup finds the value of the last entry with the key. */
  lemma {:induction false} LookupFindsLast<V>(d: seq<(string, V)>, k: string)
    requires k in Keys(d)
    ensures exists i :: 0 <= i < |d| && d[i] == (k, Lookup(d, k).value) &&
                        forall j :: i < j < |d| ==> d[j].0 != k
  {
    var n := |d| - 1;
    if d[n].0 != k {
      KeysAppend(d[..n], [d[n]]);
      assert d == d[..n] + [d[n]];
      LookupFindsLast(d[..n], k);
      var i :| 0 <= i < n && d[..n][i] == (k, Lookup(d[..n], k).value) &&
               forall j :: i < j < n ==> d[..n][j].0 != k;
      assert d[i] == (k, Lookup(d, k).value);
    }
  }

  /** An entry whose key does not occur later is what its key looks up. */
  lemma {:induction false} LookupLastAt<V>(d: seq<(string, V)>, i: nat)
    requires i < |d|
    requires forall j :: i < j < |d| ==> d[j].0 != d[i].0
    ensures Lookup(d, d[i].0) == Some(d[i].1)
  {
    var n := |d| - 1;
    if i < n {
      KeysAppend(d[..n], [d[n]]);
      assert d == d[..n] + [d[n]];
      LookupLastAt(d[..n], i);
    }
  }

  /** In a dictionary with distinct keys, the entry at position `i` is what its key looks up. */
  lemma LookupAt<V>(d: seq<(string, V)>, i: nat)
    requires DistinctKeys(d)
    requires i < |d|
    ensures Lookup(d, d[i].0) == Some(d[i].1)
  {
    forall j | i < j < |d|
      ensures d[j].0 != d[i].0
    {
      assert Keys(d)[i] == d[i].0 && Keys(d)[j] == d[j].0;
    }
    LookupLastAt(d, i);
  }

  /** Dropping the last entry of a dictionary with distinct keys keeps them distinct, and drops that key. */
  lemma DistinctKeysInit<V>(d: seq<(string, V)>)
    requires d != [] && DistinctKeys(d)
    ensures DistinctKeys(d[..|d| - 1]) && d[|d| - 1].0 !in Keys(d[..|d| - 1])
  {
    var n := |d| - 1;
    assert forall i :: 0 <= i < n ==> Keys(d[..n])[i] == Keys(d)[i];
  }

  /** Looking up in a concatenation: the later part wins. */
  lemma {:induction false} LookupAppend<V>(a: seq<(string, V)>, b: seq<(string, V)>, k: string)
    ensures Lookup(a + b, k) == if Lookup(b, k).Some? then Lookup(b, k) else Lookup(a, k)
  {
    if b == [] {
      assert a + b == a;
    } else {
      var n := |b| - 1;
      assert (a + b)[..|a + b| - 1] == a + b[..n];
      LookupAppend(a, b[..n], k);
    }
  }

  lemma {:induction false} ReplaceLookup<V>(d: seq<(string, V)>, k: string, v: V, k': string)
    requires k in Keys(d)
    ensures Lookup(Replace(d, k, v), k') == if k' == k then Some(v) else Lookup(d, k')
  {
    var n := |d| - 1;
    KeysAppend(d[..n], [d[n]]);
    assert d == d[..n] + [d[n]];
    if d[n].0 == k {
      assert (d[..n] + [(k, v)])[..n] == d[..n];
    } else {
      var r' := Replace(d[..n], k, v);
      ReplaceLookup(d[..n], k, v, k');
      assert (r' + [d[n]])[..|r'|] == r';
    }
  }

  /** After `d[k] = v`, `k` looks up `v` and every other key looks up what it did before. */
  lemma {:induction false} PutLookup<V>(d: seq<(string, V)>, k: string, v: V, k': string)
    ensures Lookup(Put(d, k, v), k') == if k' == k then Some(v) else Lookup(d, k')
  {
    if k in Keys(d) {
      ReplaceLookup(d, k, v, k');
    } else {
      assert (d + [(k, v)])[..|d|] == d;
    }
  }

  /**
   * After a sequence of assignments a key looks up the value of its last
   * assignment, or what it looked up before when it was not assigned.
   */
  lemma {:induction false} PutAllLookup<V>(d: seq<(string, V)>, kvs: seq<(string, V)>, k: string)
    ensures Lookup(PutAll(d, kvs), k) == if Lookup(kvs, k).Some? then Lookup(kvs, k) else Lookup(d, k)
  {
    if kvs != [] {
      var n := |kvs| - 1;
      PutAllLookup(d, kvs[..n], k);
      PutLookup(PutAll(d, kvs[..n]), kvs[n].0, kvs[n].1, k);
    }
  }

  lemma {:induction false} ReplaceEntries<V>(d: seq<(string, V)>, k: string, v: V, p: (string, V))
    requires k in Keys(d)
    requires p in Replace(d, k, v)
    ensures p == (k, v) || p in d
  {
    var n := |d| - 1;
    KeysAppend(d[..n], [d[n]]);
    assert d == d[..n] + [d[n]];
    if d[n].0 != k && p != d[n] {
      ReplaceEntries(d[..n], k, v, p);
    }
  }

  /** Every entry after `d[k] = v` is `(k, v)` or an entry of `d`. */
  lemma PutEntries<V>(d: seq<(string, V)>, k: string, v: V, p: (string, V))
    requires p in Put(d, k, v)
    ensures p == (k, v) || p in d
  {
    if k in Keys(d) {
      ReplaceEntries(d, k, v, p);
    }
  }

  /** Every entry after a sequence of assignments is an old entry or an assigned one. */
  lemma {:induction false} PutAllEntries<V>(d: seq<(string, V)>, kvs: seq<(string, V)>, p: (string, V))
    requires p in PutAll(d, kvs)
    ensures p in d || p in kvs
  {
    if kvs != [] {
      var n := |kvs| - 1;
      PutEntries(PutAll(d, kvs[..n]), kvs[n].0, kvs[n].1, p);
      if p != kvs[n] {
        PutAllEntries(d, kvs[..n], p);
      }
    }
  }

  /** Dedup of a sequence with one more element at the end. */
  lemma DedupSnoc(xs: seq<string>, x: string)
    ensures Dedup(xs + [x]) == if x in xs then Dedup(xs) else Dedup(xs) + [x]
  {
    var zs := xs + [x];
    assert zs[..|zs| - 1] == xs;
  }

  /**
   * The keys after a sequence of assignments: the old keys, in their old order,
   * followed by each new key at its first assignment.
   */
  lemma {:induction false} PutAllKeys<V>(d: seq<(string, V)>, kvs: seq<(string, V)>)
    requires DistinctKeys(d)
    ensures Keys(PutAll(d, kvs)) == Dedup(Keys(d) + Keys(kvs))
  {
    if kvs == [] {
      assert Keys(d) + Keys(kvs) == Keys(d);
    } else {
      var n := |kvs| - 1;
      var k := kvs[n].0;
      var e := PutAll(d, kvs[..n]);
      var xs := Keys(d) + Keys(kvs[..n]);
      calc {
        Keys(PutAll(d, kvs));
        Keys(Put(e, k, kvs[n].1));
        if k in Keys(e) then Keys(e) else Keys(e) + [k];
        { PutAllKeys(d, kvs[..n]); }
        if k in xs then Dedup(xs) else Dedup(xs) + [k];
        { DedupSnoc(xs, k); }
        Dedup(xs + [k]);
        { KeysSnoc(kvs); assert xs + [k] == Keys(d) + (Keys(kvs[..n]) + [k]); }
        Dedup(Keys(d) + Keys(kvs));
      }
    }
  }

  /** The keys of a non-empty dictionary: those before the last entry, then its key. */
  lemma KeysSnoc<V>(d: seq<(string, V)>)
    requires d != []
    ensures Keys(d) == Keys(d[..|d| - 1]) + [d[|d| - 1].0]
  {
    var n := |d| - 1;
    assert d == d[..n] + [d[n]];
    KeysAppend(d[..n], [d[n]]);
  }

  /** Dedup never moves an element it has already kept. */
  lemma {:induction false} DedupPrefix(xs: seq<string>, ys: seq<string>)
    ensures Dedup(xs) <= Dedup(xs + ys)
  {
    if ys == [] {
      assert xs + ys == xs;
    } else {
      var n := |ys| - 1;
      var ws := xs + ys[..n];
      assert Dedup(xs) <= Dedup(ws) by {
        DedupPrefix(xs, ys[..n]);
      }
      assert Dedup(ws) <= Dedup(xs + ys) by {
        assert xs + ys == ws + [ys[n]];
        DedupSnoc(ws, ys[n]);
      }
    }
  }

  /** The first element is always kept, in first position. */
  lemma DedupHead(xs: seq<string>)
    requires xs != []
    ensures Dedup(xs) != [] && Dedup(xs)[0] == xs[0]
  {
    DedupPrefix([xs[0]], xs[1..]);
    assert [xs[0]] + xs[1..] == xs;
  }

  /** Assignments to keys that already exist leave the key order as it was. */
  lemma {:induction false} PutAllExistingKeys<V>(d: seq<(string, V)>, kvs: seq<(string, V)>)
    requires forall i :: 0 <= i < |kvs| ==> kvs[i].0 in Keys(d)
    ensures Keys(PutAll(d, kvs)) == Keys(d)
  {
    if kvs != [] {
      var n := |kvs| - 1;
      PutAllExistingKeys(d, kvs[..n]);
    }
  }

  /** Two dictionaries with distinct keys, the same key order and the same lookups are equal. */
  lemma Extensionality<V>(d1: seq<(string, V)>, d2: seq<(string, V)>)
    requires DistinctKeys(d1) && DistinctKeys(d2)
    requires Keys(d1) == Keys(d2)
    requires forall k :: Lookup(d1, k) == Lookup(d2, k)
    ensures d1 == d2
  {
    forall i | 0 <= i < |d1|
      ensures d1[i] == d2[i]
    {
      assert Keys(d1)[i] == Keys(d2)[i];
      LookupAt(d1, i);
      LookupAt(d2, i);
    }
  }

  /** Doing the same assignments a second time changes nothing. */
  lemma PutAllIdempotent<V>(d: seq<(string, V)>, kvs: seq<(string, V)>)
    requires DistinctKeys(d)
    ensures PutAll(PutAll(d, kvs), kvs) == PutAll(d, kvs)
  {
    var e := PutAll(d, kvs);
    PutAllKeys(d, kvs);
    forall i | 0 <= i < |kvs|
      ensures kvs[i].0 in Keys(e)
    {
      assert Keys(kvs)[i] == kvs[i].0;
      assert kvs[i].0 in Keys(d) + Keys(kvs);
    }
    PutAllExistingKeys(e, kvs);
    forall k
      ensures Lookup(PutAll(e, kvs), k) == Lookup(e, k)
    {
      PutAllLookup(e, kvs, k);
      PutAllLookup(d, kvs, k);
    }
    Extensionality(PutAll(e, kvs), e);
  }
}
