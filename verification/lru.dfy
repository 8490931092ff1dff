/** The memo table behind `functools.lru_cache(maxsize=N)`: a bounded map
    whose entries are kept from least to most recently used. A hit moves the
    entry to the most-recent end and returns the stored value without
    calling the wrapped function; a miss calls it and, when that returns,
    stores the result at the most-recent end, first evicting the least
    recently used entry if the table is already full. A call that raises
    stores nothing. */
module Lru {
  import opened Results
  import opened Seqs

  /** `capacity` is `maxsize`; `entries` run from least to most recently used. */
  datatype Cache<K, V> = Cache(capacity: nat, entries: seq<(K, V)>)

  /** What one call through the cache returns, and the table afterwards. */
  datatype Outcome<K, V, E> = Outcome(result: Result<V, E>, cache: Cache<K, V>)

  /** The keys of the entries, in recency order. */
  function Keys<K, V>(entries: seq<(K, V)>): seq<K> {
    seq(|entries|, i requires 0 <= i < |entries| => entries[i].0)
  }

  /** No key appears twice. */
  predicate Distinct<K(==)>(ks: seq<K>) {
    forall i, j :: 0 <= i < j < |ks| ==> ks[i] != ks[j]
  }

  /** A well-formed table: a positive bound that is respected, and at most
      one entry per key. */
  predicate Valid<K(==), V>(c: Cache<K, V>) {
    && c.capacity > 0
    && |c.entries| <= c.capacity
    && Distinct(Keys(c.entries))
  }

  /** The empty table of the given size. */
  function Empty<K(==), V>(capacity: nat): (c: Cache<K, V>)
    requires capacity > 0
    ensures Valid(c) && c.entries == []
  {
    Cache(capacity, [])
  }

  /** The position of the entry for `k`, if there is one. */
  function Find<K(==), V>(entries: seq<(K, V)>, k: K): (r: Option<nat>)
    ensures r.Some? ==> r.value < |entries| && entries[r.value].0 == k
    ensures r.None? <==> k !in Keys(entries)
  {
    if entries == [] then None
    else if entries[0].0 == k then
      assert Keys(entries)[0] == k;
      Some(0)
    else
      assert Keys(entries) == [entries[0].0] + Keys(entries[1..]);
      match Find(entries[1..], k)
      case None => None
      case Some(i) => Some(i + 1)
  }

  /** The value stored for `k`, if any. */
  function Get<K(==), V>(c: Cache<K, V>, k: K): (r: Option<V>)
    ensures r.None? <==> k !in Keys(c.entries)
    ensures r.Some? ==> (k, r.value) in c.entries
  {
    match Find(c.entries, k)
    case None => None
    case Some(i) => Some(c.entries[i].1)
  }

  /** Marks entry `i` as the most recently used one. */
  function MoveToBack<K, V>(entries: seq<(K, V)>, i: nat): (r: seq<(K, V)>)
    requires i < |entries|
    ensures |r| == |entries| && r[|r| - 1] == entries[i]
    ensures multiset(r) == multiset(entries)
    ensures Keys(r) == Keys(entries)[..i] + Keys(entries)[i + 1..] + [entries[i].0]
  {
    var front, back := entries[..i], entries[i + 1..];
    assert entries == front + [entries[i]] + back;
    KeysAppend(front + back, [entries[i]]);
    KeysAppend(front, back);
    KeysSlices(entries, i);
    front + back + [entries[i]]
  }

  /** The keys of a concatenation are the keys of its parts. */
  lemma KeysAppend<K, V>(a: seq<(K, V)>, b: seq<(K, V)>)
    ensures Keys(a + b) == Keys(a) + Keys(b)
  {
  }

  /** The keys before and after position `i`. */
  lemma KeysSlices<K, V>(entries: seq<(K, V)>, i: nat)
    requires i < |entries|
    ensures Keys(entries[..i]) == Keys(entries)[..i]
    ensures Keys(entries[i + 1..]) == Keys(entries)[i + 1..]
    ensures Keys([entries[i]]) == [entries[i].0]
  {
  }

  /** Stores a new entry as the most recently used one, evicting the least
      recently used entry first when the table is full. */
  function Insert<K, V>(c: Cache<K, V>, k: K, v: V): (r: Cache<K, V>)
    requires c.capacity > 0 && |c.entries| <= c.capacity
    ensures r.capacity == c.capacity && |r.entries| <= c.capacity
    ensures |c.entries| < c.capacity ==> r.entries == c.entries + [(k, v)]
    ensures |c.entries| == c.capacity ==> r.entries == c.entries[1..] + [(k, v)]
  {
    var kept := if |c.entries| == c.capacity then c.entries[1..] else c.entries;
    c.(entries := kept + [(k, v)])
  }

  /** One call of the memoised function with argument `k`; `compute` is the
      wrapped function. A hit answers from the table whatever `compute`
      would now say; a miss answers what `compute` says and remembers it
      only if it succeeded. The table stays within its bound and keeps one
      entry per key, the key just used becomes the most recent one, and no
      other key gets a new value. */
  function Call<K(==), V, E>(c: Cache<K, V>, k: K, compute: K -> Result<V, E>): (o: Outcome<K, V, E>)
    requires Valid(c)
    ensures Valid(o.cache) && o.cache.capacity == c.capacity
    ensures Get(c, k).Some? ==> o.result == Ok(Get(c, k).value)
    ensures Get(c, k).None? ==> o.result == compute(k)
    ensures o.result.Ok? ==>
              |o.cache.entries| > 0 && o.cache.entries[|o.cache.entries| - 1] == (k, o.result.value)
    ensures o.result.Err? ==> o.cache == c
    ensures forall i :: 0 <= i < |o.cache.entries| ==>
              o.cache.entries[i] in c.entries || o.cache.entries[i].0 == k
  {
    match Find(c.entries, k)
    case Some(i) =>
      DistinctMoveToBack(Keys(c.entries), i);
      Outcome(Ok(c.entries[i].1), c.(entries := MoveToBack(c.entries, i)))
    case None =>
      match compute(k)
      case Err(e) => Outcome(Err(e), c)
      case Ok(v) =>
        InsertDistinct(c, k, v);
        Outcome(Ok(v), Insert(c, k, v))
  }

  /** Moving one key to the back keeps the keys distinct. */
  lemma DistinctMoveToBack<K>(ks: seq<K>, i: nat)
    requires i < |ks| && Distinct(ks)
    ensures Distinct(ks[..i] + ks[i + 1..] + [ks[i]])
  {
    var t := ks[..i] + ks[i + 1..] + [ks[i]];
    forall p, q | 0 <= p < q < |t| ensures t[p] != t[q] {
      var fp := if p < i then p else p + 1;
      var fq := if q == |t| - 1 then i else if q < i then q else q + 1;
      assert t[p] == ks[fp] && t[q] == ks[fq] && fp != fq;
    }
  }

  /** Storing a key that is not yet present keeps the keys distinct. */
  lemma InsertDistinct<K, V>(c: Cache<K, V>, k: K, v: V)
    requires Valid(c) && k !in Keys(c.entries)
    ensures Distinct(Keys(Insert(c, k, v).entries))
  {
    var ks := Keys(c.entries);
    var r := Keys(Insert(c, k, v).entries);
    if |c.entries| == c.capacity {
      assert r == ks[1..] + [k];
    } else {
      assert r == ks + [k];
    }
  }

  // ---------------------------------------------------------------------
  // A reference for eviction order: the recency list of all keys used.

  /** `ks` without `k`, order kept. */
  function Remove<K(==)>(ks: seq<K>, k: K): (r: seq<K>)
    ensures k !in r && |r| <= |ks|
  {
    if ks == [] then []
    else
      var rest := Remove(ks[1..], k);
      if ks[0] == k then rest else [ks[0]] + rest
  }

  /** Removal only drops elements. */
  lemma {:induction false} RemoveSubset<K>(ks: seq<K>, k: K, x: K)
    requires x in Remove(ks, k)
    ensures x in ks
    decreases |ks|
  {
    if ks != [] && x != ks[0] {
      RemoveSubset(ks[1..], k, x);
    }
  }

  /** Removal keeps a list duplicate-free. */
  lemma {:induction false} RemoveDistinct<K>(ks: seq<K>, k: K)
    requires Distinct(ks)
    ensures Distinct(Remove(ks, k))
    decreases |ks|
  {
    if ks != [] {
      DistinctCons(ks[0], ks[1..]);
      assert ks == [ks[0]] + ks[1..];
      RemoveDistinct(ks[1..], k);
      var rest := Remove(ks[1..], k);
      if ks[0] != k {
        if ks[0] in rest {
          RemoveSubset(ks[1..], k, ks[0]);
        }
        DistinctCons(ks[0], rest);
      }
    }
  }

  lemma DistinctSnoc<K>(ks: seq<K>, x: K)
    requires Distinct(ks) && x !in ks
    ensures Distinct(ks + [x])
  {
  }

  lemma DistinctCons<K>(x: K, ks: seq<K>)
    ensures Distinct([x] + ks) <==> x !in ks && Distinct(ks)
  {
    var t := [x] + ks;
    if x !in ks && Distinct(ks) {
      forall i, j | 0 <= i < j < |t| ensures t[i] != t[j] {
        assert t[j] == ks[j - 1];
        if i > 0 { assert t[i] == ks[i - 1]; }
      }
    }
    if Distinct(t) {
      forall i, j | 0 <= i < j < |ks| ensures ks[i] != ks[j] {
        assert ks[i] == t[i + 1] && ks[j] == t[j + 1];
      }
      assert x !in ks by {
        forall j | 0 <= j < |ks| ensures ks[j] != x {
          assert t[0] == x && t[j + 1] == ks[j] && t[0] != t[j + 1];
        }
      }
    }
  }

  /** Removal drops `k` and nothing else. */
  lemma {:induction false} RemoveMembers<K>(ks: seq<K>, k: K)
    ensures forall x :: x in Remove(ks, k) <==> x in ks && x != k
    decreases |ks|
  {
    if ks != [] {
      RemoveMembers(ks[1..], k);
      assert ks == [ks[0]] + ks[1..];
    }
  }

  /** Where an element of `Remove(ks, k)` sits in `ks`: two positions in
      the shorter list come from two positions in the same order. */
  lemma {:induction false} RemoveOrigin<K>(ks: seq<K>, k: K, i: nat) returns (i': nat)
    requires i < |Remove(ks, k)|
    ensures i' < |ks| && ks[i'] == Remove(ks, k)[i]
    decreases |ks|
  {
    if ks[0] == k {
      var n := RemoveOrigin(ks[1..], k, i);
      i' := n + 1;
    } else if i == 0 {
      i' := 0;
    } else {
      var n := RemoveOrigin(ks[1..], k, i - 1);
      i' := n + 1;
    }
  }

  lemma {:induction false} RemoveOrder<K>(ks: seq<K>, k: K, i: nat, j: nat) returns (i': nat, j': nat)
    requires i < j < |Remove(ks, k)|
    ensures i' < j' < |ks| && ks[i'] == Remove(ks, k)[i] && ks[j'] == Remove(ks, k)[j]
    decreases |ks|
  {
    if ks[0] == k {
      var a, b := RemoveOrder(ks[1..], k, i, j);
      i', j' := a + 1, b + 1;
    } else if i == 0 {
      var b := RemoveOrigin(ks[1..], k, j - 1);
      i', j' := 0, b + 1;
    } else {
      var a, b := RemoveOrder(ks[1..], k, i - 1, j - 1);
      i', j' := a + 1, b + 1;
    }
  }

  /** Every key of `history` once, ordered by its most recent use, oldest
      first (`RecencyOrder` states the order). */
  function Recency<K(==)>(history: seq<K>): (r: seq<K>)
    ensures Distinct(r) && |r| <= |history|
  {
    if history == [] then []
    else
      var k := history[|history| - 1];
      var front := history[..|history| - 1];
      RemoveDistinct(Recency(front), k);
      DistinctSnoc(Remove(Recency(front), k), k);
      Remove(Recency(front), k) + [k]
  }

  /** The recency list holds exactly the keys used. */
  lemma {:induction false} RecencyKeys<K>(history: seq<K>)
    ensures forall i :: 0 <= i < |Recency(history)| ==> Recency(history)[i] in history
    ensures forall i :: 0 <= i < |history| ==> history[i] in Recency(history)
    decreases |history|
  {
    if history != [] {
      var k := history[|history| - 1];
      var front := history[..|history| - 1];
      var r := Recency(history);
      var rest := Remove(Recency(front), k);
      assert history == front + [k];
      assert r == rest + [k];
      RecencyKeys(front);
      RemoveMembers(Recency(front), k);
      forall i | 0 <= i < |r| ensures r[i] in history {
        if i < |rest| {
          var a := RemoveOrigin(Recency(front), k, i);
          assert r[i] == Recency(front)[a] && Recency(front)[a] in front;
        }
      }
      forall i | 0 <= i < |history| ensures history[i] in r {
        if history[i] == k {
          assert r[|r| - 1] == k;
        } else {
          assert i < |front| && history[i] == front[i];
          assert front[i] in Recency(front);
          assert history[i] in rest;
        }
      }
    }
  }

  /** The position of the last use of `x`, or -1 when it was never used. */
  function LastUse<K(==)>(history: seq<K>, x: K): (p: int)
    ensures -1 <= p < |history|
    ensures p >= 0 ==> history[p] == x
    ensures forall q :: p < q < |history| ==> history[q] != x
  {
    if history == [] then -1
    else if history[|history| - 1] == x then |history| - 1
    else
      assert history == history[..|history| - 1] + [history[|history| - 1]];
      LastUse(history[..|history| - 1], x)
  }

  /** The recency list is ordered by last use: a key earlier in it was last
      used before a key later in it. */
  lemma {:induction false} RecencyOrder<K>(history: seq<K>, i: nat, j: nat)
    requires i < j < |Recency(history)|
    ensures 0 <= LastUse(history, Recency(history)[i]) < LastUse(history, Recency(history)[j])
    decreases |history|
  {
    var r := Recency(history);
    var k := history[|history| - 1];
    var front := history[..|history| - 1];
    var rest := Remove(Recency(front), k);
    assert r == rest + [k];
    RemoveMembers(Recency(front), k);
    RecencyKeys(front);
    var x := r[i];
    var a := RemoveOrigin(Recency(front), k, i);
    assert x == rest[i] && x in rest && x != k;
    assert Recency(front)[a] in front;
    LastUseFront(history, x);
    if j == |r| - 1 {
      assert r[j] == k;
    } else {
      var y := r[j];
      assert y == rest[j] && y in rest && y != k;
      var a', b := RemoveOrder(Recency(front), k, i, j);
      assert Recency(front)[b] in front;
      LastUseFront(history, y);
      RecencyOrder(front, a', b);
    }
  }

  /** A key other than the last one used was last used in the front. */
  lemma LastUseFront<K>(history: seq<K>, x: K)
    requires history != [] && x != history[|history| - 1]
    ensures LastUse(history, x) == LastUse(history[..|history| - 1], x)
  {
  }

  /** The `n` most recent keys of a recency list. */
  function Newest<K>(ks: seq<K>, n: nat): (r: seq<K>)
    ensures |r| == if |ks| <= n then |ks| else n
  {
    if |ks| <= n then ks else ks[|ks| - n..]
  }

  lemma {:induction false} RemoveAppend<K>(a: seq<K>, b: seq<K>, k: K)
    ensures Remove(a + b, k) == Remove(a, k) + Remove(b, k)
    decreases |a|
  {
    if a == [] {
      assert a + b == b;
    } else {
      assert (a + b)[1..] == a[1..] + b;
      RemoveAppend(a[1..], b, k);
    }
  }

  lemma {:induction false} RemoveAbsent<K>(a: seq<K>, k: K)
    requires k !in a
    ensures Remove(a, k) == a
    decreases |a|
  {
    if a != [] {
      RemoveAbsent(a[1..], k);
    }
  }

  /** Removing a key that sits at position `i` of a duplicate-free list
      just cuts it out. */
  lemma RemoveAt<K>(a: seq<K>, i: nat)
    requires i < |a| && Distinct(a)
    ensures Remove(a, a[i]) == a[..i] + a[i + 1..]
  {
    var k := a[i];
    var front, back := a[..i], a[i + 1..];
    assert a == front + ([k] + back);
    RemoveAppend(front, [k] + back, k);
    RemoveAppend([k], back, k);
    assert Remove([k], k) == [] by {
      assert [k][1..] == [];
    }
    DistinctAround(a, i);
    RemoveAbsent(front, k);
    RemoveAbsent(back, k);
    assert [] + back == back;
  }

  /** In a duplicate-free list the key at `i` occurs neither before nor
      after position `i`. */
  lemma DistinctAround<K>(a: seq<K>, i: nat)
    requires i < |a| && Distinct(a)
    ensures a[i] !in a[..i] && a[i] !in a[i + 1..]
  {
    var front, back := a[..i], a[i + 1..];
    forall j | 0 <= j < |front| ensures front[j] != a[i] {
      assert front[j] == a[j];
    }
    forall j | 0 <= j < |back| ensures back[j] != a[i] {
      assert back[j] == a[i + 1 + j];
    }
  }

  /** A hit on the key at position `i` of the newest keys: after the use,
      the newest keys are the old ones with that key moved to the back. */
  lemma HitStep<K>(order: seq<K>, cap: nat, i: nat)
    requires cap > 0 && Distinct(order)
    requires i < |Newest(order, cap)|
    ensures var s := Newest(order, cap);
            Newest(Remove(order, s[i]) + [s[i]], cap) == s[..i] + s[i + 1..] + [s[i]]
  {
    var s := Newest(order, cap);
    var a := order[..|order| - |s|];
    assert order == a + s;
    var k := s[i];
    DistinctSplit(a, s);
    RemoveAppend(a, s, k);
    RemoveAbsent(a, k);
    RemoveAt(s, i);
    var t := s[..i] + s[i + 1..] + [k];
    var x := Remove(order, k) + [k];
    assert Remove(order, k) == a + (s[..i] + s[i + 1..]);
    AppendAssoc(a, s[..i] + s[i + 1..], [k]);
    if |order| > cap {
      NewestOfAppend(a, t, cap);
    }
  }

  /** The back part of a duplicate-free list is duplicate-free and shares
      no key with the front part. */
  lemma DistinctSplit<K>(a: seq<K>, b: seq<K>)
    requires Distinct(a + b)
    ensures Distinct(b)
    ensures forall j :: 0 <= j < |b| ==> b[j] !in a
  {
    var t := a + b;
    forall p, q | 0 <= p < q < |b| ensures b[p] != b[q] {
      assert b[p] == t[|a| + p] && b[q] == t[|a| + q];
    }
    forall j | 0 <= j < |b| ensures b[j] !in a {
      forall m | 0 <= m < |a| ensures a[m] != b[j] {
        assert a[m] == t[m] && b[j] == t[|a| + j];
      }
    }
  }

  lemma Regroup<K>(b: seq<K>, x: K, t: seq<K>, y: seq<K>)
    ensures b + ([x] + t) + y == (b + [x]) + (t + y)
  {
  }

  lemma NewestOfAppend<K>(a: seq<K>, t: seq<K>, cap: nat)
    requires |t| == cap
    ensures Newest(a + t, cap) == t
  {
    assert (a + t)[|a + t| - cap..] == t;
  }

  /** A successful miss on `k`: after the use, the newest keys are the old
      ones followed by `k`, the oldest dropped if there were already `cap`. */
  lemma MissStep<K>(order: seq<K>, cap: nat, k: K)
    requires cap > 0
    requires k !in Newest(order, cap)
    ensures var s := Newest(order, cap);
            Newest(Remove(order, k) + [k], cap) ==
              (if |s| == cap then s[1..] else s) + [k]
  {
    var s := Newest(order, cap);
    var a := order[..|order| - |s|];
    assert order == a + s;
    RemoveAppend(a, s, k);
    RemoveAbsent(s, k);
    var b := Remove(a, k);
    assert Remove(order, k) == b + s;
    if |s| == cap {
      assert s == [s[0]] + s[1..];
      Regroup(b, s[0], s[1..], [k]);
      NewestOfAppend(b + [s[0]], s[1..] + [k], cap);
    } else {
      assert a == [];
      assert Remove(order, k) + [k] == s + [k];
    }
  }

  /** The table always holds exactly the `capacity` most recently used keys
      in recency order: if it did before a call, it still does after it,
      where the call counts as a use of `k` unless it raised. Starting from
      the empty table, whose keys are the newest of the empty history, the
      cache therefore evicts exactly the least recently used key. */
  lemma CallFollowsRecency<K, V, E>(c: Cache<K, V>, history: seq<K>, k: K, compute: K -> Result<V, E>)
    requires Valid(c)
    requires Keys(c.entries) == Newest(Recency(history), c.capacity)
    ensures var o := Call(c, k, compute);
            Keys(o.cache.entries) ==
              Newest(Recency(if o.result.Ok? then history + [k] else history), c.capacity)
  {
    RecencySnoc(history, k);
    match Find(c.entries, k)
    case Some(i) =>
      HitFollows(c, history, k, compute, i);
    case None =>
      if Call(c, k, compute).result.Ok? {
        MissFollows(c, history, k, compute);
      }
  }

  /** Using `k` makes it the most recent key. */
  lemma RecencySnoc<K>(history: seq<K>, k: K)
    ensures Recency(history + [k]) == Remove(Recency(history), k) + [k]
  {
    var h := history + [k];
    assert h[..|h| - 1] == history && h[|h| - 1] == k;
  }

  lemma HitFollows<K, V, E>(c: Cache<K, V>, history: seq<K>, k: K, compute: K -> Result<V, E>, i: nat)
    requires Valid(c)
    requires Keys(c.entries) == Newest(Recency(history), c.capacity)
    requires Find(c.entries, k) == Some(i)
    ensures Keys(Call(c, k, compute).cache.entries) ==
              Newest(Remove(Recency(history), k) + [k], c.capacity)
  {
    HitStep(Recency(history), c.capacity, i);
  }

  lemma MissFollows<K, V, E>(c: Cache<K, V>, history: seq<K>, k: K, compute: K -> Result<V, E>)
    requires Valid(c)
    requires Keys(c.entries) == Newest(Recency(history), c.capacity)
    requires Find(c.entries, k).None? && compute(k).Ok?
    ensures Keys(Call(c, k, compute).cache.entries) ==
              Newest(Remove(Recency(history), k) + [k], c.capacity)
  {
    MissStep(Recency(history), c.capacity, k);
    var ks := Keys(c.entries);
    var r := Keys(Call(c, k, compute).cache.entries);
    if |c.entries| == c.capacity {
      assert r == ks[1..] + [k];
    } else {
      assert r == ks + [k];
    }
  }

  /** Calling twice in a row with the same key: the second call is a hit
      and returns what the first returned, whatever the wrapped function
      would answer by then. */
  lemma RepeatIsHit<K, V, E>(c: Cache<K, V>, k: K, first: K -> Result<V, E>, second: K -> Result<V, E>)
    requires Valid(c)
    requires Call(c, k, first).result.Ok?
    ensures var o := Call(c, k, first);
            Call(o.cache, k, second).result == o.result
  {
    var o := Call(c, k, first);
    var n := |o.cache.entries|;
    assert Keys(o.cache.entries)[n - 1] == k;
    var v := Get(o.cache, k).value;
    assert (k, v) in o.cache.entries;
    var j :| 0 <= j < n && o.cache.entries[j] == (k, v);
    assert Keys(o.cache.entries)[j] == k;
  }
}
