/** Python dictionaries: a map together with the order in which its keys were first inserted,
    which is the order in which Python iterates over them. */
module Dicts {
  import opened Basics

  datatype Dict<K(==), V> = Dict(keys: seq<K>, entries: map<K, V>)

  /** The key sequence lists every key of the map exactly once. */
  predicate Valid<K(==), V>(d: Dict<K, V>) {
    && (forall i, j :: 0 <= i < j < |d.keys| ==> d.keys[i] != d.keys[j])
    && (forall k :: k in d.entries ==> k in d.keys)
    && (forall i :: 0 <= i < |d.keys| ==> d.keys[i] in d.entries)
  }

  /** Every key of the iteration order has an entry: what a loop over `keys` that looks each
      one up relies on. */
  predicate Present<K(==), V>(d: Dict<K, V>) {
    forall i :: 0 <= i < |d.keys| ==> d.keys[i] in d.entries
  }

  function Empty<K(==), V>(): (d: Dict<K, V>)
    ensures Valid(d) && d.keys == [] && d.entries == map[]
  {
    Dict([], map[])
  }

  /** `d[k] = v`: a new key goes to the end of the iteration order, an existing key keeps its place. */
  function Set<K(==), V>(d: Dict<K, V>, k: K, v: V): (r: Dict<K, V>)
    requires Valid(d)
    ensures Valid(r)
    ensures r.entries == d.entries[k := v]
    ensures r.keys == if k in d.entries then d.keys else d.keys + [k]
  {
    if k in d.entries then Dict(d.keys, d.entries[k := v]) else Dict(d.keys + [k], d.entries[k := v])
  }

  /** `d.get(k, default)` */
  function Get<K(==), V>(d: Dict<K, V>, k: K, default: V): V {
    if k in d.entries then d.entries[k] else default
  }

  /** Store `v` under `k` unless `k` is already present: the step of every "first one wins" loop. */
  function InsertNew<K(==), V>(d: Dict<K, V>, k: K, v: V): (r: Dict<K, V>)
    requires Valid(d)
    ensures Valid(r)
  {
    if k in d.entries then d else Set(d, k, v)
  }

  /** Offer the candidates to `d` in order, each stored only if its key is not yet present. */
  function InsertAll<K(==), V>(d: Dict<K, V>, cands: seq<(K, V)>): (r: Dict<K, V>)
    requires Valid(d)
    ensures Valid(r)
  {
    if cands == [] then d
    else
      var last := cands[|cands| - 1];
      InsertNew(InsertAll(d, cands[..|cands| - 1]), last.0, last.1)
  }

  /** Offering one more candidate is one more `InsertNew`. */
  lemma InsertAllSnoc<K, V>(d: Dict<K, V>, cands: seq<(K, V)>, k: K, v: V)
    requires Valid(d)
    ensures InsertAll(d, cands + [(k, v)]) == InsertNew(InsertAll(d, cands), k, v)
  {
    assert (cands + [(k, v)])[..|cands|] == cands;
  }

  /** The keys offered by a candidate sequence. */
  function KeysOf<K(==), V>(cands: seq<(K, V)>): set<K> {
    set i | 0 <= i < |cands| :: cands[i].0
  }

  lemma {:induction false} InsertAllConcat<K, V>(d: Dict<K, V>, a: seq<(K, V)>, b: seq<(K, V)>)
    requires Valid(d)
    ensures InsertAll(d, a + b) == InsertAll(InsertAll(d, a), b)
    decreases |b|
  {
    if b == [] {
      assert a + b == a;
    } else {
      var b' := b[..|b| - 1];
      assert (a + b)[..|a + b| - 1] == a + b';
      assert (a + b)[|a + b| - 1] == b[|b| - 1];
      InsertAllConcat(d, a, b');
    }
  }

  /** Keys already present are never overwritten, and the iteration order only grows at the end. */
  lemma {:induction false} InsertAllKeepsOld<K, V>(d: Dict<K, V>, cands: seq<(K, V)>)
    requires Valid(d)
    ensures forall k :: k in d.entries ==> k in InsertAll(d, cands).entries && InsertAll(d, cands).entries[k] == d.entries[k]
    ensures d.keys <= InsertAll(d, cands).keys
  {
    if cands != [] {
      InsertAllKeepsOld(d, cands[..|cands| - 1]);
    }
  }

  /** The result holds exactly the old keys and the offered ones. */
  lemma {:induction false} InsertAllKeys<K, V>(d: Dict<K, V>, cands: seq<(K, V)>)
    requires Valid(d)
    ensures InsertAll(d, cands).entries.Keys == d.entries.Keys + KeysOf(cands)
  {
    if cands != [] {
      var init := cands[..|cands| - 1];
      InsertAllKeys(d, init);
      KeysOfSnoc(cands);
    }
  }

  lemma KeysOfSnoc<K, V>(cands: seq<(K, V)>)
    requires cands != []
    ensures KeysOf(cands) == KeysOf(cands[..|cands| - 1]) + {cands[|cands| - 1].0}
  {
    var init := cands[..|cands| - 1];
    forall k | k in KeysOf(cands) ensures k in KeysOf(init) + {cands[|cands| - 1].0} {
      var i :| 0 <= i < |cands| && cands[i].0 == k;
      if i < |cands| - 1 {
        assert init[i] == cands[i];
      }
    }
    forall k | k in KeysOf(init) ensures k in KeysOf(cands) {
      var i :| 0 <= i < |init| && init[i].0 == k;
      assert cands[i] == init[i];
    }
  }

  /** A new key maps to the value of the FIRST candidate that offers it. */
  lemma {:induction false} InsertAllFirstWins<K, V>(d: Dict<K, V>, cands: seq<(K, V)>, i: nat)
    requires Valid(d)
    requires i < |cands| && cands[i].0 !in d.entries
    requires forall j :: 0 <= j < i ==> cands[j].0 != cands[i].0
    ensures cands[i].0 in InsertAll(d, cands).entries
    ensures InsertAll(d, cands).entries[cands[i].0] == cands[i].1
    decreases |cands|
  {
    var init := cands[..|cands| - 1];
    if i == |cands| - 1 {
      InsertAllKeys(d, init);
      assert cands[i].0 !in KeysOf(init);
    } else {
      assert init[i] == cands[i];
      InsertAllFirstWins(d, init, i);
    }
  }

  /** Every value the result holds under a new key was offered under that key. */
  lemma {:induction false} InsertAllValues<K, V>(d: Dict<K, V>, cands: seq<(K, V)>)
    requires Valid(d)
    ensures forall k :: k in InsertAll(d, cands).entries && k !in d.entries ==>
              (k, InsertAll(d, cands).entries[k]) in cands
  {
    if cands != [] {
      var init := cands[..|cands| - 1];
      InsertAllValues(d, init);
      forall k | k in InsertAll(d, cands).entries && k !in d.entries
        ensures (k, InsertAll(d, cands).entries[k]) in cands
      {
        if k in InsertAll(d, init).entries {
          assert InsertAll(d, cands).entries[k] == InsertAll(d, init).entries[k];
          assert (k, InsertAll(d, init).entries[k]) in init;
        } else {
          assert cands[|cands| - 1] == (k, InsertAll(d, cands).entries[k]);
        }
      }
    }
  }

  /** The (key, value) pairs for the keys `keep` accepts, in the order of `keys`. */
  function Offered<K, V>(keys: seq<K>, keep: K -> bool, val: K -> V): seq<(K, V)> {
    if keys == [] then []
    else
      var k := keys[|keys| - 1];
      Offered(keys[..|keys| - 1], keep, val) + (if keep(k) then [(k, val(k))] else [])
  }

  /** Every offered pair is an accepted key and its value. */
  lemma {:induction false} OfferedFrom<K, V>(keys: seq<K>, keep: K -> bool, val: K -> V, k: K, w: V)
    requires (k, w) in Offered(keys, keep, val)
    ensures k in keys && keep(k) && w == val(k)
  {
    var init := keys[..|keys| - 1];
    if (k, w) in Offered(init, keep, val) {
      OfferedFrom(init, keep, val, k, w);
    }
  }

  /** Every accepted key is offered with its value. */
  lemma {:induction false} OfferedHas<K, V>(keys: seq<K>, keep: K -> bool, val: K -> V, j: nat)
    requires j < |keys| && keep(keys[j])
    ensures (keys[j], val(keys[j])) in Offered(keys, keep, val)
  {
    var init := keys[..|keys| - 1];
    if j < |init| {
      assert init[j] == keys[j];
      OfferedHas(init, keep, val, j);
    }
  }

  /** Offering a prefix one key longer adds that key's pair when it is accepted. */
  lemma OfferedSnoc<K, V>(keys: seq<K>, keep: K -> bool, val: K -> V, n: nat)
    requires n < |keys|
    ensures Offered(keys[..n + 1], keep, val)
              == Offered(keys[..n], keep, val) + (if keep(keys[n]) then [(keys[n], val(keys[n]))] else [])
  {
    assert keys[..n + 1][..n] == keys[..n];
  }

  /** `d[k] = v` for each pair in order: a later pair overwrites an earlier one. */
  function SetAll<K(==), V>(d: Dict<K, V>, pairs: seq<(K, V)>): (r: Dict<K, V>)
    requires Valid(d)
    ensures Valid(r)
  {
    if pairs == [] then d
    else
      var last := pairs[|pairs| - 1];
      Set(SetAll(d, pairs[..|pairs| - 1]), last.0, last.1)
  }

  /** The result holds exactly the old keys and the assigned ones. */
  lemma {:induction false} SetAllKeys<K, V>(d: Dict<K, V>, pairs: seq<(K, V)>)
    requires Valid(d)
    ensures SetAll(d, pairs).entries.Keys == d.entries.Keys + KeysOf(pairs)
  {
    if pairs != [] {
      SetAllKeys(d, pairs[..|pairs| - 1]);
      KeysOfSnoc(pairs);
    }
  }

  /** The old iteration order comes first: new keys go to the end. */
  lemma {:induction false} SetAllOrder<K, V>(d: Dict<K, V>, pairs: seq<(K, V)>)
    requires Valid(d)
    ensures d.keys <= SetAll(d, pairs).keys
  {
    if pairs != [] {
      SetAllOrder(d, pairs[..|pairs| - 1]);
    }
  }

  /** A key holds the value of the LAST pair that assigns it. */
  lemma {:induction false} SetAllLastWins<K, V>(d: Dict<K, V>, pairs: seq<(K, V)>, i: nat)
    requires Valid(d)
    requires i < |pairs|
    requires forall j :: i < j < |pairs| ==> pairs[j].0 != pairs[i].0
    ensures pairs[i].0 in SetAll(d, pairs).entries
    ensures SetAll(d, pairs).entries[pairs[i].0] == pairs[i].1
  {
    if i < |pairs| - 1 {
      var init := pairs[..|pairs| - 1];
      assert init[i] == pairs[i];
      SetAllLastWins(d, init, i);
    }
  }

  /** A key no pair assigns keeps its old value. */
  lemma {:induction false} SetAllKeepsOthers<K, V>(d: Dict<K, V>, pairs: seq<(K, V)>, k: K)
    requires Valid(d)
    requires k in d.entries && k !in KeysOf(pairs)
    ensures k in SetAll(d, pairs).entries && SetAll(d, pairs).entries[k] == d.entries[k]
  {
    if pairs != [] {
      KeysOfSnoc(pairs);
      SetAllKeepsOthers(d, pairs[..|pairs| - 1], k);
    }
  }

  lemma {:induction false} SetAllConcat<K, V>(d: Dict<K, V>, a: seq<(K, V)>, b: seq<(K, V)>)
    requires Valid(d)
    ensures SetAll(d, a + b) == SetAll(SetAll(d, a), b)
    decreases |b|
  {
    if b == [] {
      assert a + b == a;
    } else {
      var b' := b[..|b| - 1];
      assert (a + b)[..|a + b| - 1] == a + b';
      assert (a + b)[|a + b| - 1] == b[|b| - 1];
      SetAllConcat(d, a, b');
    }
  }

  /** Every value the result holds under an assigned key was assigned under that key. */
  lemma {:induction false} SetAllValues<K, V>(d: Dict<K, V>, pairs: seq<(K, V)>, k: K)
    requires Valid(d)
    requires k in SetAll(d, pairs).entries && k !in d.entries
    ensures (k, SetAll(d, pairs).entries[k]) in pairs
  {
    var init := pairs[..|pairs| - 1];
    var last := pairs[|pairs| - 1];
    if k != last.0 {
      SetAllValues(d, init, k);
    }
  }

  /** The pairs `pick` chooses from `xs`, in order; an element it chooses nothing from is skipped. */
  function Picked<T, K, V>(xs: seq<T>, pick: T -> Option<(K, V)>): seq<(K, V)> {
    if xs == [] then []
    else
      var o := pick(xs[|xs| - 1]);
      Picked(xs[..|xs| - 1], pick) + (if o.Some? then [o.value] else [])
  }

  /** One more element adds its pair, if it has one. */
  lemma PickedSnoc<T, K, V>(xs: seq<T>, pick: T -> Option<(K, V)>, i: nat)
    requires i < |xs|
    ensures Picked(xs[..i + 1], pick) == Picked(xs[..i], pick) + (if pick(xs[i]).Some? then [pick(xs[i]).value] else [])
  {
    assert xs[..i + 1][..i] == xs[..i];
  }

  /** Every pair chosen comes from some element. */
  lemma {:induction false} PickedFrom<T, K, V>(xs: seq<T>, pick: T -> Option<(K, V)>, p: (K, V))
    requires p in Picked(xs, pick)
    ensures exists i :: 0 <= i < |xs| && pick(xs[i]) == Some(p)
  {
    var n := |xs| - 1;
    var init := xs[..n];
    if p in Picked(init, pick) {
      PickedFrom(init, pick, p);
      var i :| 0 <= i < |init| && pick(init[i]) == Some(p);
      assert xs[i] == init[i];
    } else {
      assert pick(xs[n]) == Some(p);
    }
  }

  /** Assigning one more pair is one more `Set`. */
  lemma SetAllSnoc<K, V>(d: Dict<K, V>, pairs: seq<(K, V)>, p: (K, V))
    requires Valid(d)
    ensures SetAll(d, pairs + [p]) == Set(SetAll(d, pairs), p.0, p.1)
  {
    assert (pairs + [p])[..|pairs|] == pairs;
  }

  /** Assigning the chosen pairs in order, the last element choosing a key decides its value. */
  lemma {:induction false} SetAllPickedLastWins<T, K, V>(d: Dict<K, V>, xs: seq<T>, pick: T -> Option<(K, V)>, j: nat)
    requires Valid(d)
    requires j < |xs| && pick(xs[j]).Some?
    requires forall i :: j < i < |xs| && pick(xs[i]).Some? ==> pick(xs[i]).value.0 != pick(xs[j]).value.0
    ensures pick(xs[j]).value.0 in SetAll(d, Picked(xs, pick)).entries
    ensures SetAll(d, Picked(xs, pick)).entries[pick(xs[j]).value.0] == pick(xs[j]).value.1
  {
    var n := |xs| - 1;
    var o := pick(xs[n]);
    var prev := Picked(xs[..n], pick);
    var k, v := pick(xs[j]).value.0, pick(xs[j]).value.1;
    assert xs[..n + 1] == xs;
    PickedSnoc(xs, pick, n);
    if j == n {
      SetAllSnoc(d, prev, o.value);
    } else {
      assert xs[..n][j] == xs[j];
      SetAllPickedLastWins(d, xs[..n], pick, j);
      if o.Some? {
        SetAllSnoc(d, prev, o.value);
        assert o.value.0 != k;
      } else {
        assert Picked(xs, pick) == prev;
      }
    }
  }

  /** Store `v` under a key not yet in `d` and record the key in `seen`, the set of stored keys. */
  method AddNew<K(==), V>(d0: Dict<K, V>, seen0: set<K>, k: K, v: V) returns (d: Dict<K, V>, seen: set<K>)
    requires Valid(d0) && seen0 == d0.entries.Keys && k !in seen0
    ensures d == InsertNew(d0, k, v) && d == Set(d0, k, v)
    ensures seen == d.entries.Keys
  {
    d := Set(d0, k, v);
    seen := seen0 + {k};
  }
}
