/**
 The LRU cache of src/cache.c as a value: key/value pairs from the most to the least recently used,
 with the values the cache has handed to its deallocator.
 */
module LruModel {
  import opened Common

  datatype Pair<V> = Pair(key: Key, value: V)

  /** `limit` is the queue's current capacity; it grows only when `expand` holds. */
  datatype Lru<V> = Lru(expand: bool, limit: nat, pairs: seq<Pair<V>>, freed: seq<V>)

  ghost predicate WellFormed<V>(s: Lru<V>) {
    && 0 < s.limit && |s.pairs| <= s.limit
    && Distinct(Keys(s.pairs))
    && 0 !in Keys(s.pairs)
  }

  function Keys<V>(pairs: seq<Pair<V>>): (ks: seq<Key>)
    ensures |ks| == |pairs|
    ensures forall i :: 0 <= i < |ks| ==> ks[i] == pairs[i].key
  {
    seq(|pairs|, i requires 0 <= i < |pairs| => pairs[i].key)
  }

  function Values<V>(pairs: seq<Pair<V>>): (vs: seq<V>)
    ensures |vs| == |pairs|
    ensures forall i :: 0 <= i < |vs| ==> vs[i] == pairs[i].value
  {
    seq(|pairs|, i requires 0 <= i < |pairs| => pairs[i].value)
  }

  function IndexOf<V>(pairs: seq<Pair<V>>, key: Key): (i: nat)
    ensures i <= |pairs|
    ensures i < |pairs| ==> pairs[i].key == key
    ensures forall j :: 0 <= j < i ==> pairs[j].key != key
    ensures i < |pairs| <==> key in Keys(pairs)
  {
    if pairs == [] then 0 else if pairs[0].key == key then 0 else 1 + IndexOf(pairs[1..], key)
  }

  function MoveToFront<T>(xs: seq<T>, i: nat): seq<T>
    requires i < |xs|
  {
    [xs[i]] + xs[..i] + xs[i + 1..]
  }

  // ---- The two operations ------------------------------------------------------------------------

  function Hit<V>(s: Lru<V>, key: Key): Lru<V> {
    var i := IndexOf(s.pairs, key);
    if i < |s.pairs| then s.(pairs := MoveToFront(s.pairs, i)) else s
  }

  function HitValue<V>(s: Lru<V>, key: Key): Option<V> {
    var i := IndexOf(s.pairs, key);
    if i < |s.pairs| then Some(s.pairs[i].value) else None
  }

  function Store<V>(s: Lru<V>, key: Key, value: V): Lru<V>
    requires 0 < s.limit
  {
    var n := |s.pairs|;
    if n != s.limit then s.(pairs := [Pair(key, value)] + s.pairs)
    else if s.expand then Lru(s.expand, 2 * s.limit, [Pair(key, value)] + s.pairs, s.freed)
    else Lru(s.expand, s.limit, [Pair(key, value)] + s.pairs[..n - 1], s.freed + [s.pairs[n - 1].value])
  }

  /** What every caller does: try to hit, and on a miss store a value made for the key. */
  function Access<V>(s: Lru<V>, key: Key, made: V): Lru<V>
    requires 0 < s.limit
  {
    if key in Keys(s.pairs) then Hit(s, key) else Store(s, key, made)
  }

  function AccessValue<V>(s: Lru<V>, key: Key, made: V): V {
    if key in Keys(s.pairs) then HitValue(s, key).value else made
  }

  function Destroyed<V>(s: Lru<V>): Lru<V> {
    s.(pairs := [], freed := s.freed + Values(s.pairs))
  }

  // ---- Keys in order of recency --------------------------------------------------------------------

  function Without(xs: seq<Key>, k: Key): seq<Key> {
    if xs == [] then [] else if xs[0] == k then Without(xs[1..], k) else [xs[0]] + Without(xs[1..], k)
  }

  /** `xs` is an order of recency; use the keys `ks` one after the other. */
  function Recency(xs: seq<Key>, ks: seq<Key>): seq<Key> {
    if ks == [] then xs
    else
      var k := ks[|ks| - 1];
      [k] + Without(Recency(xs, ks[..|ks| - 1]), k)
  }

  function Take<T>(xs: seq<T>, n: nat): seq<T> {
    if |xs| <= n then xs else xs[..n]
  }

  lemma {:induction false} WithoutAbsent(xs: seq<Key>, k: Key)
    requires k !in xs
    ensures Without(xs, k) == xs
  {
    if xs != [] {
      WithoutAbsent(xs[1..], k);
    }
  }

  lemma {:induction false} WithoutAt(xs: seq<Key>, i: nat)
    requires Distinct(xs) && i < |xs|
    ensures Without(xs, xs[i]) == xs[..i] + xs[i + 1..]
  {
    if i == 0 {
      assert forall j :: 0 <= j < |xs[1..]| ==> xs[1..][j] == xs[j + 1];
      WithoutAbsent(xs[1..], xs[0]);
    } else {
      WithoutAt(xs[1..], i - 1);
      assert xs[..i] == [xs[0]] + xs[1..][..i - 1];
    }
  }

  lemma {:induction false} WithoutMembers(xs: seq<Key>, k: Key)
    ensures forall x :: x in Without(xs, k) <==> x in xs && x != k
    ensures Distinct(xs) ==> Distinct(Without(xs, k))
  {
    if xs != [] {
      WithoutMembers(xs[1..], k);
      assert Distinct(xs) ==> xs[0] !in xs[1..];
    }
  }

  lemma {:induction false} RecencyMembers(xs: seq<Key>, ks: seq<Key>)
    ensures forall x :: x in Recency(xs, ks) <==> x in xs || x in ks
    ensures Distinct(xs) ==> Distinct(Recency(xs, ks))
  {
    if ks != [] {
      var n := |ks| - 1;
      var rs := Recency(xs, ks[..n]);
      RecencyMembers(xs, ks[..n]);
      WithoutMembers(rs, ks[n]);
      assert ks == ks[..n] + [ks[n]];
      if Distinct(xs) {
        DistinctCons(ks[n], Without(rs, ks[n]));
      }
    }
  }

  /** Keys used once at the front: everything used lately, then what is left of the old order. */
  lemma {:induction false} RecencySplit(xs: seq<Key>, ks: seq<Key>)
    ensures Recency(xs, ks) == Recency([], ks) + Unused(xs, ks)
    ensures |Recency([], ks)| <= |ks|
  {
    if ks == [] {
      UnusedNone(xs);
    } else {
      var n := |ks| - 1;
      RecencySplit(xs, ks[..n]);
      WithoutAppend(Recency([], ks[..n]), Unused(xs, ks[..n]), ks[n]);
      UnusedOneMore(xs, ks[..n], ks[n]);
      WithoutShrinks(Recency([], ks[..n]), ks[n]);
      assert ks == ks[..n] + [ks[n]];
    }
  }

  function Unused(xs: seq<Key>, ks: seq<Key>): seq<Key> {
    if xs == [] then [] else if xs[0] in ks then Unused(xs[1..], ks) else [xs[0]] + Unused(xs[1..], ks)
  }

  lemma {:induction false} UnusedNone(xs: seq<Key>)
    ensures Unused(xs, []) == xs
  {
    if xs != [] {
      UnusedNone(xs[1..]);
    }
  }

  lemma {:induction false} UnusedAll(xs: seq<Key>, ys: seq<Key>, ks: seq<Key>)
    requires forall x :: x in xs ==> x in ks
    requires forall y :: y in ys ==> y !in ks
    ensures Unused(xs + ys, ks) == ys
  {
    if xs != [] {
      assert (xs + ys)[1..] == xs[1..] + ys;
      UnusedAll(xs[1..], ys, ks);
    } else if ys != [] {
      assert xs + ys == ys;
      UnusedAll([], ys[1..], ks);
      assert [] + ys[1..] == ys[1..];
    }
  }

  lemma {:induction false} UnusedMembers(xs: seq<Key>, ks: seq<Key>)
    ensures forall x :: x in Unused(xs, ks) <==> x in xs && x !in ks
  {
    if xs != [] {
      UnusedMembers(xs[1..], ks);
    }
  }

  lemma {:induction false} UnusedOneMore(xs: seq<Key>, ks: seq<Key>, k: Key)
    ensures Without(Unused(xs, ks), k) == Unused(xs, ks + [k])
  {
    if xs != [] {
      UnusedOneMore(xs[1..], ks, k);
    }
  }

  lemma {:induction false} WithoutAppend(xs: seq<Key>, ys: seq<Key>, k: Key)
    ensures Without(xs + ys, k) == Without(xs, k) + Without(ys, k)
  {
    if xs == [] {
      assert xs + ys == ys;
    } else {
      assert (xs + ys)[1..] == xs[1..] + ys;
      WithoutAppend(xs[1..], ys, k);
    }
  }

  lemma {:induction false} WithoutShrinks(xs: seq<Key>, k: Key)
    ensures |Without(xs, k)| <= |xs|
  {
    if xs != [] {
      WithoutShrinks(xs[1..], k);
    }
  }

  // ---- One use ------------------------------------------------------------------------------------

  lemma {:induction false} KeysOf<V>(ps: seq<Pair<V>>, qs: seq<Pair<V>>)
    ensures Keys(ps + qs) == Keys(ps) + Keys(qs) && Values(ps + qs) == Values(ps) + Values(qs)
  {
  }

  lemma {:induction false} HitKeys<V>(s: Lru<V>, key: Key)
    requires Distinct(Keys(s.pairs)) && key in Keys(s.pairs)
    ensures Keys(Hit(s, key).pairs) == [key] + Without(Keys(s.pairs), key)
  {
    var i := IndexOf(s.pairs, key);
    KeysOfFront(s.pairs, i);
    FrontIsWithout(Keys(s.pairs), i);
  }

  lemma {:induction false} FrontIsWithout(xs: seq<Key>, i: nat)
    requires Distinct(xs) && i < |xs|
    ensures MoveToFront(xs, i) == [xs[i]] + Without(xs, xs[i])
  {
    WithoutAt(xs, i);
  }

  lemma {:induction false} KeysOfFront<V>(ps: seq<Pair<V>>, i: nat)
    requires i < |ps|
    ensures Keys(MoveToFront(ps, i)) == MoveToFront(Keys(ps), i)
  {
    var r, ks := Keys(MoveToFront(ps, i)), Keys(ps);
    forall j | 0 <= j < |r| ensures r[j] == MoveToFront(ks, i)[j] {
      assert r[j] == MoveToFront(ps, i)[j].key;
    }
  }

  lemma {:induction false} DistinctCons(k: Key, xs: seq<Key>)
    requires Distinct(xs) && k !in xs
    ensures Distinct([k] + xs)
  {
  }

  lemma {:induction false} MissChangesNothing<V>(s: Lru<V>, key: Key)
    ensures HitValue(s, key).Some? <==> key in Keys(s.pairs)
    ensures HitValue(s, key).None? ==> Hit(s, key) == s
  {
  }

  lemma {:induction false} AccessWellFormed<V>(s: Lru<V>, key: Key, made: V)
    requires WellFormed(s) && key != 0
    ensures WellFormed(Access(s, key, made))
  {
    var ks := Keys(s.pairs);
    var r := Access(s, key, made);
    if key in ks {
      HitKeys(s, key);
      WithoutMembers(ks, key);
      DistinctCons(key, Without(ks, key));
    } else {
      var n := |s.pairs|;
      var kept := if n == s.limit && !s.expand then s.pairs[..n - 1] else s.pairs;
      assert Keys(kept) == ks[..|kept|];
      assert Keys(r.pairs) == [key] + Keys(kept);
      DistinctCons(key, Keys(kept));
    }
  }

  lemma {:induction false} WellFormedKeys<V>(s: Lru<V>)
    requires WellFormed(s)
    ensures Distinct(Keys(s.pairs)) && 0 !in Keys(s.pairs) && 0 < s.limit && |s.pairs| <= s.limit
  {
  }

  lemma {:induction false} FrontWellFormed<V>(s: Lru<V>, i: nat)
    requires WellFormed(s) && i < |s.pairs|
    ensures WellFormed(s.(pairs := MoveToFront(s.pairs, i)))
  {
    var key := s.pairs[i].key;
    assert Keys(s.pairs)[i] == key;
    assert IndexOf(s.pairs, key) == i by {
      assert Keys(s.pairs)[IndexOf(s.pairs, key)] == key;
    }
    AccessWellFormed(s, key, s.pairs[i].value);
  }

  lemma {:induction false} GrowWellFormed<V>(s: Lru<V>)
    requires WellFormed(s)
    ensures WellFormed(s.(limit := 2 * s.limit))
  {
  }

  lemma {:induction false} EvictWellFormed<V>(s: Lru<V>)
    requires WellFormed(s) && s.pairs != []
    ensures var n := |s.pairs| - 1; WellFormed(s.(pairs := s.pairs[..n], freed := s.freed + [s.pairs[n].value]))
  {
    assert Keys(s.pairs[..|s.pairs| - 1]) == Keys(s.pairs)[..|s.pairs| - 1];
  }

  /**
   One use of a cache that holds the front of the recency order `rs`: afterwards it holds the front
   of the new recency order, whatever the cache had to drop.
   */
  lemma {:induction false} AccessIsRecency<V>(s: Lru<V>, rs: seq<Key>, key: Key, made: V)
    requires WellFormed(s) && Distinct(rs)
    requires Keys(s.pairs) == if s.expand then rs else Take(rs, s.limit)
    ensures var r := Access(s, key, made); var rs' := [key] + Without(rs, key);
      Keys(r.pairs) == if r.expand then rs' else Take(rs', r.limit)
  {
    var ks := Keys(s.pairs);
    if key in ks {
      var i :| 0 <= i < |ks| && ks[i] == key;
      HitKeys(s, key);
      if !s.expand {
        FrontAfterHit(rs, i, s.limit, key);
      }
    } else {
      MissKeys(s, key, made);
      if !s.expand {
        FrontAfterMiss(rs, s.limit, key);
      } else {
        WithoutAbsent(rs, key);
      }
    }
  }

  lemma {:induction false} FrontAfterHit(rs: seq<Key>, i: nat, n: nat, key: Key)
    requires Distinct(rs) && i < |rs| && i < n && rs[i] == key
    ensures Take([key] + Without(rs, key), n) == [key] + Without(Take(rs, n), key)
  {
    var front := Take(rs, n);
    WithoutAt(rs, i);
    WithoutAt(front, i);
    assert |rs| > n ==> ([key] + (rs[..i] + rs[i + 1..]))[..n] == [key] + (front[..i] + front[i + 1..]);
  }

  lemma {:induction false} FrontAfterMiss(rs: seq<Key>, n: nat, key: Key)
    requires Distinct(rs) && 0 < n && key !in Take(rs, n)
    ensures Take([key] + Without(rs, key), n) == [key] + Take(Take(rs, n), n - 1)
  {
    if key in rs {
      var i :| 0 <= i < |rs| && rs[i] == key;
      assert n <= i;
      WithoutAt(rs, i);
      assert ([key] + (rs[..i] + rs[i + 1..]))[..n] == [key] + rs[..n - 1];
    } else {
      WithoutAbsent(rs, key);
    }
  }

  lemma {:induction false} MissKeys<V>(s: Lru<V>, key: Key, made: V)
    requires WellFormed(s)
    ensures Keys(Store(s, key, made).pairs) ==
            [key] + if s.expand then Keys(s.pairs) else Take(Keys(s.pairs), s.limit - 1)
  {
    var n := |s.pairs|;
    assert n == s.limit ==> Keys(s.pairs[..n - 1]) == Keys(s.pairs)[..n - 1];
  }

  // ---- Whole runs ---------------------------------------------------------------------------------

  datatype Use<V> = Use(key: Key, made: V)

  function AccessAll<V>(s: Lru<V>, uses: seq<Use<V>>): (r: Lru<V>)
    requires 0 < s.limit
    ensures 0 < r.limit && r.expand == s.expand && (!s.expand ==> r.limit == s.limit)
  {
    if uses == [] then s
    else
      var n := |uses| - 1;
      Access(AccessAll(s, uses[..n]), uses[n].key, uses[n].made)
  }

  function UseKeys<V>(uses: seq<Use<V>>): (ks: seq<Key>)
    ensures |ks| == |uses|
    ensures forall i :: 0 <= i < |ks| ==> ks[i] == uses[i].key
  {
    seq(|uses|, i requires 0 <= i < |uses| => uses[i].key)
  }

  /**
   A cache of a fixed capacity holds exactly the most recently used keys of its whole history, in
   order of recency, as many as fit; an expanding cache holds them all.
   */
  lemma {:induction false} RunIsRecency<V>(s: Lru<V>, uses: seq<Use<V>>)
    requires WellFormed(s) && 0 !in UseKeys(uses)
    ensures var r := AccessAll(s, uses); var rs := Recency(Keys(s.pairs), UseKeys(uses));
      && WellFormed(r)
      && Keys(r.pairs) == if r.expand then rs else Take(rs, r.limit)
  {
    if uses != [] {
      var n := |uses| - 1;
      var ks, key, made := UseKeys(uses), uses[n].key, uses[n].made;
      assert ks[..n] == UseKeys(uses[..n]) && ks[n] == key != 0;
      RunIsRecency(s, uses[..n]);
      var u, rs := AccessAll(s, uses[..n]), Recency(Keys(s.pairs), ks[..n]);
      AccessWellFormed(u, key, made);
      assert Distinct(rs) by { RecencyMembers(Keys(s.pairs), ks[..n]); }
      AccessIsRecency(u, rs, key, made);
    }
  }

  // ---- A pass no longer than the cache ---------------------------------------------------------------

  /** What the i-th use of the run got. */
  function ResultAt<V>(s: Lru<V>, uses: seq<Use<V>>, i: nat): V
    requires 0 < s.limit && i < |uses|
  {
    AccessValue(AccessAll(s, uses[..i]), uses[i].key, uses[i].made)
  }

  lemma {:induction false} AccessAllOneMore<V>(s: Lru<V>, uses: seq<Use<V>>, use: Use<V>)
    requires 0 < s.limit
    ensures AccessAll(s, uses + [use]) == Access(AccessAll(s, uses), use.key, use.made)
    ensures ResultAt(s, uses + [use], |uses|) == AccessValue(AccessAll(s, uses), use.key, use.made)
    ensures forall i :: 0 <= i < |uses| ==> ResultAt(s, uses + [use], i) == ResultAt(s, uses, i)
  {
    hide Access, AccessValue;
    assert (uses + [use])[..|uses|] == uses;
    forall i | 0 <= i < |uses| ensures ResultAt(s, uses + [use], i) == ResultAt(s, uses, i) {
      assert (uses + [use])[..i] == uses[..i];
    }
  }

  ghost predicate Fits<V>(s: Lru<V>, n: nat) {
    s.expand || n <= s.limit
  }

  /** A value stays put as long as its key does. */
  lemma {:induction false} AccessKeepsPair<V>(s: Lru<V>, key: Key, made: V, p: Pair<V>)
    requires WellFormed(s) && p in s.pairs && p.key in Keys(Access(s, key, made).pairs)
    ensures p in Access(s, key, made).pairs
  {
    var r := Access(s, key, made);
    var i :| 0 <= i < |s.pairs| && s.pairs[i] == p;
    assert Keys(s.pairs)[i] == p.key;
    if key in Keys(s.pairs) {
      MoveToFrontMembers(s.pairs, IndexOf(s.pairs, key));
    } else if |s.pairs| == s.limit && !s.expand {
      assert r.pairs[1..] == s.pairs[..|s.pairs| - 1];
      var j :| 0 <= j < |r.pairs| && Keys(r.pairs)[j] == p.key;
      assert j > 0 && r.pairs[j] == s.pairs[j - 1] && Keys(s.pairs)[j - 1] == p.key;
      assert i == j - 1;
    } else {
      assert r.pairs[1..] == s.pairs;
    }
  }

  lemma {:induction false} MoveToFrontMembers<T>(xs: seq<T>, i: nat)
    requires i < |xs|
    ensures forall x :: x in MoveToFront(xs, i) <==> x in xs
    ensures multiset(MoveToFront(xs, i)) == multiset(xs)
  {
    assert xs == xs[..i] + ([xs[i]] + xs[i + 1..]);
  }

  lemma {:induction false} AccessHolds<V>(s: Lru<V>, key: Key, made: V)
    requires WellFormed(s)
    ensures var r := Access(s, key, made); r.pairs != [] && r.pairs[0] == Pair(key, AccessValue(s, key, made))
  {
  }

  /** A pass no longer than the cache leaves every key it used in the cache. */
  lemma {:induction false} PassKeepsKeys<V>(s: Lru<V>, uses: seq<Use<V>>)
    requires WellFormed(s) && 0 !in UseKeys(uses) && Fits(s, |uses|)
    ensures var ks := UseKeys(uses); var r := AccessAll(s, uses); var front := Recency([], ks);
      && WellFormed(r)
      && (forall k :: k in ks ==> k in Keys(r.pairs))
      && exists rest :: Keys(r.pairs) == front + rest && forall k :: k in rest ==> k !in ks
  {
    var ks, r := UseKeys(uses), AccessAll(s, uses);
    var front, rest := Recency([], ks), Unused(Keys(s.pairs), ks);
    RunIsRecency(s, uses);
    RecencySplit(Keys(s.pairs), ks);
    RecencyMembers([], ks);
    UnusedMembers(Keys(s.pairs), ks);
    if !s.expand {
      assert Take(front + rest, r.limit) == front + Take(rest, r.limit - |front|);
      rest := Take(rest, r.limit - |front|);
    }
    assert Keys(r.pairs) == front + rest;
  }

  lemma {:induction false} StepKeepsPair<V>(s: Lru<V>, uses: seq<Use<V>>, p: Pair<V>)
    requires WellFormed(s) && 0 !in UseKeys(uses) && Fits(s, |uses|)
    requires uses != [] && p.key in UseKeys(uses) && p in AccessAll(s, uses[..|uses| - 1]).pairs
    ensures p in AccessAll(s, uses).pairs
  {
    var m := |uses| - 1;
    assert UseKeys(uses[..m]) == UseKeys(uses)[..m];
    RunIsRecency(s, uses[..m]);
    PassKeepsKeys(s, uses);
    AccessKeepsPair(AccessAll(s, uses[..m]), uses[m].key, uses[m].made, p);
  }

  lemma {:induction false} LastResultHeld<V>(s: Lru<V>, uses: seq<Use<V>>)
    requires WellFormed(s) && 0 !in UseKeys(uses) && uses != []
    ensures var m := |uses| - 1; Pair(uses[m].key, ResultAt(s, uses, m)) in AccessAll(s, uses).pairs
  {
    var m := |uses| - 1;
    assert UseKeys(uses[..m]) == UseKeys(uses)[..m];
    RunIsRecency(s, uses[..m]);
    AccessHolds(AccessAll(s, uses[..m]), uses[m].key, uses[m].made);
  }

  /**
   No eviction during such a pass drops a value the pass has already got: at the end they are all
   still held, under the keys that asked for them.
   */
  lemma {:induction false} PassKeepsResults<V>(s: Lru<V>, uses: seq<Use<V>>, i: nat)
    requires WellFormed(s) && 0 !in UseKeys(uses) && Fits(s, |uses|) && i < |uses|
    ensures Pair(uses[i].key, ResultAt(s, uses, i)) in AccessAll(s, uses).pairs
    decreases |uses|
  {
    hide AccessAll, AccessValue, WellFormed;
    WellFormedKeys(s);
    var m := |uses| - 1;
    if i == m {
      LastResultHeld(s, uses);
    } else {
      assert UseKeys(uses[..m]) == UseKeys(uses)[..m] && UseKeys(uses)[i] == uses[i].key;
      assert uses[..m][..i] == uses[..i];
      PassKeepsResults(s, uses[..m], i);
      StepKeepsPair(s, uses, Pair(uses[i].key, ResultAt(s, uses, i)));
    }
  }

  lemma {:induction false} EvictionDrops<V>(s: Lru<V>, key: Key, made: V)
    requires WellFormed(s) && !s.expand && |s.pairs| == s.limit && key !in Keys(s.pairs)
    ensures var r := Access(s, key, made); var last := s.pairs[|s.pairs| - 1];
      r.freed == s.freed + [last.value] && last.key !in Keys(r.pairs)
  {
    var r, n := Access(s, key, made), |s.pairs| - 1;
    assert r.pairs == [Pair(key, made)] + s.pairs[..n];
    assert Keys(s.pairs)[n] == s.pairs[n].key;
    forall j | 0 <= j < |r.pairs| ensures Keys(r.pairs)[j] != s.pairs[n].key {
      assert j > 0 ==> Keys(r.pairs)[j] == Keys(s.pairs)[j - 1];
    }
  }

  /** What such a pass evicts, and hands to the deallocator, is under no key that the pass has used. */
  lemma {:induction false} EvictsNoKeyUsed<V>(s: Lru<V>, uses: seq<Use<V>>, i: nat, n: nat)
    requires WellFormed(s) && 0 !in UseKeys(uses) && Fits(s, |uses|) && i < n < |uses|
    requires var c := AccessAll(s, uses[..n]);
      !c.expand && |c.pairs| == c.limit && uses[n].key !in Keys(c.pairs)
    ensures var c, d := AccessAll(s, uses[..n]), AccessAll(s, uses[..n + 1]); var last := c.pairs[|c.pairs| - 1];
      d.freed == c.freed + [last.value] && last.key != uses[i].key
  {
    hide WellFormed, Access;
    WellFormedKeys(s);
    var m := n + 1;
    AccessAllOneMore(s, uses[..n], uses[n]);
    assert uses[..m] == uses[..n] + [uses[n]];
    assert UseKeys(uses[..m]) == UseKeys(uses)[..m] && UseKeys(uses[..n]) == UseKeys(uses)[..n];
    PassKeepsKeys(s, uses[..m]);
    PassKeepsKeys(s, uses[..n]);
    assert UseKeys(uses[..m])[i] == uses[i].key;
    EvictionDrops(AccessAll(s, uses[..n]), uses[n].key, uses[n].made);
  }

  lemma {:induction false} HitsOnly<V>(s: Lru<V>, uses: seq<Use<V>>)
    requires WellFormed(s) && 0 !in UseKeys(uses)
    requires forall k :: k in UseKeys(uses) ==> k in Keys(s.pairs)
    ensures var r := AccessAll(s, uses);
      r.(pairs := s.pairs) == s && multiset(r.pairs) == multiset(s.pairs)
  {
    if uses != [] {
      var n := |uses| - 1;
      var u := AccessAll(s, uses[..n]);
      assert UseKeys(uses)[..n] == UseKeys(uses[..n]) && UseKeys(uses)[n] == uses[n].key;
      HitsOnly(s, uses[..n]);
      assert uses[n].key in UseKeys(uses);
      SamePairsSameKeys(s.pairs, u.pairs, uses[n].key);
      MoveToFrontMembers(u.pairs, IndexOf(u.pairs, uses[n].key));
    }
  }

  lemma {:induction false} SamePairsSameKeys<V>(ps: seq<Pair<V>>, qs: seq<Pair<V>>, key: Key)
    requires multiset(ps) == multiset(qs) && key in Keys(ps)
    ensures key in Keys(qs)
  {
    var i :| 0 <= i < |ps| && Keys(ps)[i] == key;
    assert ps[i] in multiset(ps) && ps[i] in qs;
    var j :| 0 <= j < |qs| && qs[j] == ps[i];
    assert Keys(qs)[j] == key;
  }

  lemma {:induction false} SamePairs<V>(ps: seq<Pair<V>>, qs: seq<Pair<V>>)
    requires Distinct(Keys(ps)) && Keys(ps) == Keys(qs)
    requires multiset(ps) == multiset(qs)
    ensures ps == qs
  {
    forall i | 0 <= i < |ps| ensures ps[i] == qs[i] {
      assert qs[i] in multiset(qs) && qs[i] in ps;
      var j :| 0 <= j < |ps| && ps[j] == qs[i];
      assert Keys(ps)[j] == Keys(qs)[i] == Keys(ps)[i];
    }
  }

  /** A second pass over the same keys only hits: same results, and the cache ends as it began. */
  lemma {:induction false} SecondPassOnlyHits<V>(s: Lru<V>, uses: seq<Use<V>>, again: seq<Use<V>>)
    requires WellFormed(s) && 0 !in UseKeys(uses) && Fits(s, |uses|)
    requires UseKeys(again) == UseKeys(uses)
    ensures AccessAll(AccessAll(s, uses), again) == AccessAll(s, uses)
  {
    var ks, r := UseKeys(uses), AccessAll(s, uses);
    var u, front := AccessAll(r, again), Recency([], ks);
    PassKeepsKeys(s, uses);
    var rest :| Keys(r.pairs) == front + rest && forall k :: k in rest ==> k !in ks;
    HitsOnly(r, again);
    RunIsRecency(r, again);
    RecencySplit(Keys(r.pairs), ks);
    RecencyMembers([], ks);
    UnusedAll(front, rest, ks);
    assert Keys(u.pairs) == Keys(r.pairs);
    SamePairs(r.pairs, u.pairs);
  }

  lemma {:induction false} SecondPassSameResults<V>(s: Lru<V>, uses: seq<Use<V>>, again: seq<Use<V>>, i: nat)
    requires WellFormed(s) && 0 !in UseKeys(uses) && Fits(s, |uses|)
    requires UseKeys(again) == UseKeys(uses) && i < |uses|
    ensures var r := AccessAll(s, uses);
      && again[i].key in Keys(AccessAll(r, again[..i]).pairs)
      && ResultAt(r, again, i) == ResultAt(s, uses, i)
  {
    var r := AccessAll(s, uses);
    var u, key := AccessAll(r, again[..i]), uses[i].key;
    var ks := UseKeys(again[..i]);
    assert ks == UseKeys(uses)[..i] && UseKeys(uses)[i] == key == UseKeys(again)[i];
    PassKeepsKeys(s, uses);
    HitsOnly(r, again[..i]);
    RunIsRecency(r, again[..i]);
    PassKeepsResults(s, uses, i);
    FindPair(r.pairs, u.pairs, Pair(key, ResultAt(s, uses, i)));
  }

  lemma {:induction false} FindPair<V>(ps: seq<Pair<V>>, qs: seq<Pair<V>>, p: Pair<V>)
    requires p in ps && multiset(ps) == multiset(qs) && Distinct(Keys(qs))
    ensures p.key in Keys(qs) && qs[IndexOf(qs, p.key)] == p
  {
    assert p in multiset(ps) && p in qs;
    var j :| 0 <= j < |qs| && qs[j] == p;
    assert Keys(qs)[j] == p.key;
    SameKeySameValue(qs, p, qs[IndexOf(qs, p.key)]);
  }

  lemma {:induction false} SameKeySameValue<V>(ps: seq<Pair<V>>, p: Pair<V>, q: Pair<V>)
    requires Distinct(Keys(ps)) && p in ps && q in ps && p.key == q.key
    ensures p == q
  {
    var i :| 0 <= i < |ps| && ps[i] == p;
    var j :| 0 <= j < |ps| && ps[j] == q;
    assert Keys(ps)[i] == Keys(ps)[j];
  }

  // ---- Ownership -----------------------------------------------------------------------------------

  /** The values a run hands over to the cache: those made for a miss. */
  function Stored<V>(s: Lru<V>, uses: seq<Use<V>>): seq<V>
    requires 0 < s.limit
  {
    if uses == [] then []
    else
      var n := |uses| - 1;
      Stored(s, uses[..n])
        + if uses[n].key in Keys(AccessAll(s, uses[..n]).pairs) then [] else [uses[n].made]
  }

  function Owned<V>(s: Lru<V>): multiset<V> {
    multiset(Values(s.pairs)) + multiset(s.freed)
  }

  lemma {:induction false} AccessOwnership<V>(s: Lru<V>, key: Key, made: V)
    requires WellFormed(s)
    ensures Owned(Access(s, key, made)) ==
            Owned(s) + if key in Keys(s.pairs) then multiset{} else multiset{made}
  {
    if key in Keys(s.pairs) {
      var i := IndexOf(s.pairs, key);
      ValuesOfFront(s.pairs, i);
      MoveToFrontMembers(Values(s.pairs), i);
    } else {
      StoreOwnership(s, key, made);
    }
  }

  lemma {:induction false} StoreOwnership<V>(s: Lru<V>, key: Key, made: V)
    requires WellFormed(s)
    ensures Owned(Store(s, key, made)) == Owned(s) + multiset{made}
  {
    hide WellFormed;
    WellFormedKeys(s);
    var n, r := |s.pairs|, Store(s, key, made);
    var kept := if n == s.limit && !s.expand then s.pairs[..n - 1] else s.pairs;
    KeysOf([Pair(key, made)], kept);
    assert Values([Pair(key, made)]) == [made];
    if n == s.limit && !s.expand {
      KeysOf(kept, [s.pairs[n - 1]]);
      assert s.pairs == kept + [s.pairs[n - 1]];
      assert Values([s.pairs[n - 1]]) == [s.pairs[n - 1].value];
    }
  }

  lemma {:induction false} ValuesOfFront<V>(ps: seq<Pair<V>>, i: nat)
    requires i < |ps|
    ensures Values(MoveToFront(ps, i)) == MoveToFront(Values(ps), i)
  {
  }

  /** Conservation: every value handed over is either held or has been deallocated. */
  lemma {:induction false} RunOwnership<V>(s: Lru<V>, uses: seq<Use<V>>)
    requires WellFormed(s) && 0 !in UseKeys(uses)
    ensures Owned(AccessAll(s, uses)) == Owned(s) + multiset(Stored(s, uses))
  {
    if uses != [] {
      var n := |uses| - 1;
      assert UseKeys(uses)[..n] == UseKeys(uses[..n]);
      RunOwnership(s, uses[..n]);
      RunIsRecency(s, uses[..n]);
      AccessOwnership(AccessAll(s, uses[..n]), uses[n].key, uses[n].made);
    }
  }

  /** Destroying the cache after any run deallocates every stored value exactly once. */
  lemma {:induction false} DestroyFreesOnce<V>(limit: nat, expand: bool, uses: seq<Use<V>>)
    requires 0 < limit && 0 !in UseKeys(uses)
    ensures var s: Lru<V> := Lru(expand, limit, [], []);
      var r := AccessAll(s, uses);
      && multiset(Destroyed(r).freed) == multiset(Stored(s, uses))
      && r.freed <= Destroyed(r).freed
      && (Distinct(Stored(s, uses)) ==> Distinct(Destroyed(r).freed))
  {
    var s: Lru<V> := Lru(expand, limit, [], []);
    RunOwnership(s, uses);
    var r := AccessAll(s, uses);
    assert Owned(s) == multiset{};
    assert multiset(Destroyed(r).freed) == Owned(r);
    if Distinct(Stored(s, uses)) {
      DistinctIsPermutationInvariant(Stored(s, uses), Destroyed(r).freed);
    }
  }

  lemma {:induction false} DistinctMultiset<T>(xs: seq<T>)
    ensures Distinct(xs) <==> forall x :: multiset(xs)[x] <= 1
  {
    if xs != [] {
      var n := |xs| - 1;
      DistinctMultiset(xs[..n]);
      assert xs == xs[..n] + [xs[n]];
      assert multiset(xs) == multiset(xs[..n]) + multiset{xs[n]};
      if xs[n] in xs[..n] {
        var i :| 0 <= i < n && xs[i] == xs[n];
        assert xs[n] in multiset(xs[..n]);
        assert multiset(xs)[xs[n]] >= 2;
      } else {
        assert xs[n] !in multiset(xs[..n]);
        assert Distinct(xs) <==> Distinct(xs[..n]);
        assert forall x :: multiset(xs)[x] == multiset(xs[..n])[x] + if x == xs[n] then 1 else 0;
      }
    }
  }

  lemma {:induction false} DistinctIsPermutationInvariant<T>(xs: seq<T>, ys: seq<T>)
    requires multiset(xs) == multiset(ys) && Distinct(xs)
    ensures Distinct(ys)
  {
    DistinctMultiset(xs);
    DistinctMultiset(ys);
  }
}
