/**
 The chained hash table of src/cache.c as a value: a sequence of buckets, each the list of the
 entries that follow the bucket's sentinel.  A bucket without entries has no chain at all.
 */
module HashModel {
  import opened Common

  /** A stored value is `None` when the C code stores a NULL pointer. */
  datatype Entry<V> = Entry(key: Key, value: Option<V>)

  datatype Table<V> = Table(capacity: nat, size: nat, buckets: seq<seq<Entry<V>>>)

  const MAGIC: nat := 2654435761

  /** The bucket of a key: wrapping 64-bit product, reduced, then truncated to `unsigned int`. */
  function Index(key: Key, capacity: nat): (b: nat)
    requires capacity > 0
    ensures b < capacity
  {
    (key * MAGIC) % 0x1_0000_0000_0000_0000 % capacity % 0x1_0000_0000
  }

  // ---- Chains ----------------------------------------------------------------------------------

  predicate HasEntry<V>(es: seq<Entry<V>>, key: Key) {
    exists i :: 0 <= i < |es| && es[i].key == key
  }

  function FindEntry<V>(es: seq<Entry<V>>, key: Key): Option<V> {
    if es == [] then None else if es[0].key == key then es[0].value else FindEntry(es[1..], key)
  }

  function AddEntry<V>(es: seq<Entry<V>>, key: Key, value: Option<V>): seq<Entry<V>> {
    if es == [] then [Entry(key, value)]
    else if es[0].key == key then [Entry(key, value)] + es[1..]
    else [es[0]] + AddEntry(es[1..], key, value)
  }

  function RemoveEntry<V>(es: seq<Entry<V>>, key: Key): seq<Entry<V>> {
    if es == [] then [] else if es[0].key == key then es[1..] else [es[0]] + RemoveEntry(es[1..], key)
  }

  ghost predicate UniqueKeys<V>(es: seq<Entry<V>>) {
    forall i, j :: 0 <= i < j < |es| ==> es[i].key != es[j].key
  }

  lemma {:induction false} FindEntryAt<V>(es: seq<Entry<V>>, i: nat)
    requires UniqueKeys(es) && i < |es|
    ensures FindEntry(es, es[i].key) == es[i].value
  {
    if i > 0 {
      assert es[i] == es[1..][i - 1];
      FindEntryAt(es[1..], i - 1);
    }
  }

  lemma {:induction false} FindEntryMissing<V>(es: seq<Entry<V>>, key: Key)
    requires !HasEntry(es, key)
    ensures FindEntry(es, key) == None
  {
    if es != [] {
      assert es[0].key != key;
      forall i | 0 <= i < |es[1..]| ensures es[1..][i].key != key {
        assert es[1..][i] == es[i + 1];
      }
      FindEntryMissing(es[1..], key);
    }
  }

  lemma {:induction false} AddEntryShape<V>(es: seq<Entry<V>>, key: Key, value: Option<V>)
    ensures var r := AddEntry(es, key, value);
      && |r| == |es| + (if HasEntry(es, key) then 0 else 1)
      && (forall i :: 0 <= i < |es| ==> r[i].key == es[i].key)
      && (|r| > |es| ==> r[|es|].key == key)
      && FindEntry(r, key) == value
      && forall k :: k != key ==> FindEntry(r, k) == FindEntry(es, k)
  {
    if es != [] && es[0].key != key {
      AddEntryShape(es[1..], key, value);
      assert HasEntry(es, key) ==> HasEntry(es[1..], key) by {
        if HasEntry(es, key) {
          var i :| 0 <= i < |es| && es[i].key == key;
          assert es[1..][i - 1].key == key;
        }
      }
    } else if es != [] {
      assert es[0].key == key;
    }
  }

  lemma {:induction false} RemoveEntryShape<V>(es: seq<Entry<V>>, key: Key)
    requires UniqueKeys(es)
    ensures var r := RemoveEntry(es, key);
      && |r| == |es| - (if HasEntry(es, key) then 1 else 0)
      && UniqueKeys(r) && (!HasEntry(es, key) ==> r == es)
      && (forall k :: HasEntry(r, k) <==> k != key && HasEntry(es, k))
      && forall k :: k != key ==> FindEntry(r, k) == FindEntry(es, k)
  {
    if es != [] {
      var t, r := es[1..], RemoveEntry(es, key);
      forall k ensures HasEntry(es, k) <==> k == es[0].key || HasEntry(t, k) {
        HasEntryTail(es, k);
      }
      if es[0].key == key {
        assert forall i :: 0 <= i < |t| ==> t[i].key == es[i + 1].key;
      } else {
        RemoveEntryShape(t, key);
        forall k ensures HasEntry(r, k) <==> k == es[0].key || HasEntry(RemoveEntry(t, key), k) {
          HasEntryTail(r, k);
        }
        assert UniqueKeys(r) by {
          assert !HasEntry(t, es[0].key) by {
            assert forall i :: 0 <= i < |t| ==> t[i].key == es[i + 1].key;
          }
          assert !HasEntry(RemoveEntry(t, key), es[0].key);
        }
      }
    }
  }

  lemma {:induction false} HasEntryTail<V>(es: seq<Entry<V>>, key: Key)
    requires es != []
    ensures HasEntry(es, key) <==> es[0].key == key || HasEntry(es[1..], key)
  {
    if i :| 0 <= i < |es| && es[i].key == key {
      assert i > 0 ==> es[1..][i - 1].key == key;
    }
    if i :| 0 <= i < |es[1..]| && es[1..][i].key == key {
      assert es[i + 1].key == key;
    }
  }

  // ---- Tables ----------------------------------------------------------------------------------

  function Empty<V>(capacity: nat): Table<V> {
    Table(capacity, 0, seq(capacity, _ => []))
  }

  function Bucket<V>(t: Table<V>, key: Key): seq<Entry<V>>
    requires 0 < t.capacity == |t.buckets|
  {
    t.buckets[Index(key, t.capacity)]
  }

  /** The sentinel carries key 0 and the search starts at it, so key 0 always reads as NULL. */
  function Get<V>(t: Table<V>, key: Key): Option<V>
    requires 0 < t.capacity == |t.buckets|
  {
    if key == 0 then None else FindEntry(Bucket(t, key), key)
  }

  /** A set at capacity is dropped, unless the chain (sentinel included) already has the key. */
  predicate Refuses<V>(t: Table<V>, key: Key)
    requires 0 < t.capacity == |t.buckets|
  {
    t.size >= t.capacity && (Bucket(t, key) == [] || (key != 0 && !HasEntry(Bucket(t, key), key)))
  }

  function Set<V>(t: Table<V>, key: Key, value: Option<V>): Table<V>
    requires 0 < t.capacity == |t.buckets|
  {
    if Refuses(t, key) then t
    else
      var es := Bucket(t, key);
      Table(t.capacity, t.size + (if HasEntry(es, key) then 0 else 1),
            t.buckets[Index(key, t.capacity) := AddEntry(es, key, value)])
  }

  function Del<V>(t: Table<V>, key: Key): Table<V>
    requires WellFormed(t)
  {
    var es := Bucket(t, key);
    if !HasEntry(es, key) then t
    else
      TotalAtLeast(t.buckets, Index(key, t.capacity));
      Table(t.capacity, t.size - 1, t.buckets[Index(key, t.capacity) := RemoveEntry(es, key)])
  }

  function Total<V>(buckets: seq<seq<Entry<V>>>): nat {
    if buckets == [] then 0 else |buckets[0]| + Total(buckets[1..])
  }

  ghost predicate WellFormed<V>(t: Table<V>) {
    && 0 < t.capacity == |t.buckets|
    && t.size == Total(t.buckets)
    && (forall b :: 0 <= b < |t.buckets| ==> UniqueKeys(t.buckets[b]))
    && (forall b, i :: 0 <= b < |t.buckets| && 0 <= i < |t.buckets[b]| ==>
          Index(t.buckets[b][i].key, t.capacity) == b)
  }

  lemma {:induction false} TotalAtLeast<V>(buckets: seq<seq<Entry<V>>>, b: nat)
    requires b < |buckets|
    ensures Total(buckets) >= |buckets[b]|
  {
    if b > 0 {
      TotalAtLeast(buckets[1..], b - 1);
    }
  }

  lemma {:induction false} TotalUpdate<V>(buckets: seq<seq<Entry<V>>>, b: nat, es: seq<Entry<V>>)
    requires b < |buckets|
    ensures Total(buckets[b := es]) == Total(buckets) - |buckets[b]| + |es|
  {
    var r := buckets[b := es];
    if b == 0 {
      assert r[1..] == buckets[1..];
    } else {
      TotalUpdate(buckets[1..], b - 1, es);
      assert r[1..] == buckets[1..][b - 1 := es];
    }
  }

  lemma {:induction false} EmptyIsWellFormed<V>(capacity: nat)
    requires capacity > 0
    ensures WellFormed(Empty<V>(capacity)) && ToMap(Empty<V>(capacity)) == map[]
  {
    TotalOfEmpty<V>(capacity);
  }

  lemma {:induction false} TotalOfEmpty<V>(n: nat)
    ensures Total<V>(seq(n, _ => [])) == 0
  {
    if n > 0 {
      var s: seq<seq<Entry<V>>> := seq(n, _ => []);
      assert s[1..] == seq(n - 1, _ => []);
      TotalOfEmpty<V>(n - 1);
    }
  }

  // ---- The finite map a table stands for ---------------------------------------------------------

  ghost function KeySet<V>(t: Table<V>): set<Key> {
    set b, i | 0 <= b < |t.buckets| && 0 <= i < |t.buckets[b]| :: t.buckets[b][i].key
  }

  ghost function ToMap<V>(t: Table<V>): map<Key, Option<V>>
    requires 0 < t.capacity == |t.buckets|
  {
    map k | k in KeySet(t) :: FindEntry(Bucket(t, k), k)
  }

  lemma {:induction false} KeySetByBucket<V>(t: Table<V>, key: Key)
    requires WellFormed(t)
    ensures key in KeySet(t) <==> HasEntry(Bucket(t, key), key)
  {
    if HasEntry(Bucket(t, key), key) {
      var i :| 0 <= i < |Bucket(t, key)| && Bucket(t, key)[i].key == key;
      assert t.buckets[Index(key, t.capacity)][i].key == key;
    }
  }

  lemma {:induction false} ToMapIs<V>(t: Table<V>, m: map<Key, Option<V>>)
    requires WellFormed(t)
    requires forall k: Key :: HasEntry(Bucket(t, k), k) <==> k in m
    requires forall k: Key :: k in m ==> FindEntry(Bucket(t, k), k) == m[k]
    ensures ToMap(t) == m
  {
    forall k: Key ensures k in ToMap(t) <==> k in m {
      KeySetByBucket(t, k);
    }
  }

  /** On nonzero keys the table reads exactly like the map; key 0 is never found. */
  lemma {:induction false} GetRefinesMap<V>(t: Table<V>, key: Key)
    requires WellFormed(t)
    ensures Get(t, key) == if key != 0 && key in ToMap(t) then ToMap(t)[key] else None
  {
    KeySetByBucket(t, key);
    if key !in ToMap(t) {
      FindEntryMissing(Bucket(t, key), key);
    }
  }

  lemma {:induction false} AddEntryUnique<V>(es: seq<Entry<V>>, key: Key, value: Option<V>)
    requires UniqueKeys(es)
    ensures UniqueKeys(AddEntry(es, key, value)) && HasEntry(AddEntry(es, key, value), key)
  {
    var r := AddEntry(es, key, value);
    AddEntryShape(es, key, value);
    if HasEntry(es, key) {
      var i :| 0 <= i < |es| && es[i].key == key;
      assert r[i].key == key;
    } else {
      assert r[|es|].key == key;
    }
  }

  lemma {:induction false} SetWellFormed<V>(t: Table<V>, key: Key, value: Option<V>)
    requires WellFormed(t) && !Refuses(t, key)
    ensures WellFormed(Set(t, key, value))
    ensures HasEntry(Bucket(Set(t, key, value), key), key)
  {
    var b, es := Index(key, t.capacity), Bucket(t, key);
    var r, es' := Set(t, key, value), AddEntry(es, key, value);
    AddEntryShape(es, key, value);
    AddEntryUnique(es, key, value);
    TotalUpdate(t.buckets, b, es');
    forall c, i | 0 <= c < |r.buckets| && 0 <= i < |r.buckets[c]|
      ensures Index(r.buckets[c][i].key, t.capacity) == c
    {
      if c != b || i < |es| {
        assert r.buckets[c][i].key == t.buckets[c][i].key;
      }
    }
  }

  lemma {:induction false} SetKeys<V>(t: Table<V>, key: Key, value: Option<V>, k: Key)
    requires WellFormed(t) && !Refuses(t, key)
    ensures var r := Set(t, key, value);
      && (k in KeySet(r) <==> k in KeySet(t) || k == key)
      && FindEntry(Bucket(r, k), k) == if k == key then value else FindEntry(Bucket(t, k), k)
  {
    var es, r := Bucket(t, key), Set(t, key, value);
    SetWellFormed(t, key, value);
    AddEntryShape(es, key, value);
    KeySetByBucket(t, k);
    KeySetByBucket(r, k);
    if k != key && Index(k, t.capacity) == Index(key, t.capacity) {
      assert forall i :: 0 <= i < |es| ==> Bucket(r, key)[i].key == es[i].key;
    }
  }

  /**
   A set is the map update, and for a nonzero key it is refused exactly when the table is at
   capacity and the key is new.
   */
  lemma {:induction false} SetRefinesMap<V>(t: Table<V>, key: Key, value: Option<V>)
    requires WellFormed(t)
    ensures WellFormed(Set(t, key, value))
    ensures ToMap(Set(t, key, value)) == if Refuses(t, key) then ToMap(t) else ToMap(t)[key := value]
    ensures key != 0 ==> (Refuses(t, key) <==> t.size >= t.capacity && key !in ToMap(t))
    ensures Set(t, key, value).capacity == t.capacity
    ensures |Set(t, key, value).buckets| == |t.buckets|
    ensures Set(t, key, value).size == t.size + if Refuses(t, key) || key in ToMap(t) then 0 else 1
  {
    KeySetByBucket(t, key);
    if !Refuses(t, key) {
      SetWellFormed(t, key, value);
      var r, m := Set(t, key, value), ToMap(t)[key := value];
      forall k: Key ensures (HasEntry(Bucket(r, k), k) <==> k in m) && (k in m ==> FindEntry(Bucket(r, k), k) == m[k]) {
        SetKeys(t, key, value, k);
        KeySetByBucket(r, k);
      }
      ToMapIs(r, m);
    }
  }

  lemma {:induction false} DelWellFormed<V>(t: Table<V>, key: Key)
    requires WellFormed(t)
    ensures WellFormed(Del(t, key))
  {
    var b, es := Index(key, t.capacity), Bucket(t, key);
    if HasEntry(es, key) {
      var es' := RemoveEntry(es, key);
      RemoveEntryShape(es, key);
      TotalUpdate(t.buckets, b, es');
      forall i | 0 <= i < |es'| ensures Index(es'[i].key, t.capacity) == b {
        assert HasEntry(es, es'[i].key);
        var j :| 0 <= j < |es| && es[j].key == es'[i].key;
        assert es[j] == t.buckets[b][j];
      }
    }
  }

  lemma {:induction false} DelRefinesMap<V>(t: Table<V>, key: Key)
    requires WellFormed(t)
    ensures WellFormed(Del(t, key))
    ensures ToMap(Del(t, key)) == ToMap(t) - {key}
    ensures Del(t, key).size == t.size - if key in ToMap(t) then 1 else 0
  {
    DelWellFormed(t, key);
    KeySetByBucket(t, key);
    RemoveEntryShape(Bucket(t, key), key);
    var r, m := Del(t, key), ToMap(t) - {key};
    forall k: Key ensures (HasEntry(Bucket(r, k), k) <==> k in m) && (k in m ==> FindEntry(Bucket(r, k), k) == m[k]) {
      KeySetByBucket(t, k);
      DelBucket(t, key, k);
    }
    ToMapIs(r, m);
  }

  lemma {:induction false} DelBucket<V>(t: Table<V>, key: Key, k: Key)
    requires WellFormed(t)
    ensures HasEntry(Bucket(Del(t, key), k), k) <==> k != key && HasEntry(Bucket(t, k), k)
    ensures k != key ==> FindEntry(Bucket(Del(t, key), k), k) == FindEntry(Bucket(t, k), k)
  {
    var es := Bucket(t, key);
    RemoveEntryShape(es, key);
    if HasEntry(es, key) && Index(k, t.capacity) == Index(key, t.capacity) && HasEntry(RemoveEntry(es, key), k) {
      var i :| 0 <= i < |RemoveEntry(es, key)| && RemoveEntry(es, key)[i].key == k;
      assert HasEntry(es, RemoveEntry(es, key)[i].key);
    }
  }

  // ---- Iteration and growth ----------------------------------------------------------------------

  /** The entries in the order in which the iteration macros visit them. */
  function Items<V>(buckets: seq<seq<Entry<V>>>): seq<Entry<V>> {
    if buckets == [] then [] else Items(buckets[..|buckets| - 1]) + buckets[|buckets| - 1]
  }

  /** Set every entry of `items` whose value is not NULL, as the growth loops do. */
  function SetAll<V>(t: Table<V>, items: seq<Entry<V>>): (r: Table<V>)
    requires 0 < t.capacity == |t.buckets|
    ensures 0 < r.capacity == |r.buckets| && r.capacity == t.capacity
  {
    if items == [] then t
    else
      var u := SetAll(t, items[..|items| - 1]);
      var e := items[|items| - 1];
      if e.value == None then u else Set(u, e.key, e.value)
  }

  ghost function NonNull<V>(m: map<Key, Option<V>>): map<Key, Option<V>> {
    map k | k in m && m[k] != None :: m[k]
  }

  ghost predicate InSome<V>(buckets: seq<seq<Entry<V>>>, e: Entry<V>) {
    exists b :: 0 <= b < |buckets| && e in buckets[b]
  }

  lemma {:induction false} ItemsOf<V>(buckets: seq<seq<Entry<V>>>)
    ensures |Items(buckets)| == Total(buckets)
    ensures forall e :: e in Items(buckets) <==> InSome(buckets, e)
  {
    if buckets != [] {
      var n := |buckets| - 1;
      ItemsOf(buckets[..n]);
      TotalUpdate(buckets, n, []);
      TotalOfPrefix(buckets, n);
      forall e ensures e in Items(buckets) <==> InSome(buckets, e) {
        if e in Items(buckets) {
          if e in Items(buckets[..n]) {
            var b :| 0 <= b < |buckets[..n]| && e in buckets[..n][b];
            assert e in buckets[b];
          } else {
            assert e in buckets[n];
          }
        }
        if b :| 0 <= b < |buckets| && e in buckets[b] {
          if b < n {
            assert e in buckets[..n][b];
          }
        }
      }
    }
  }

  lemma {:induction false} TotalOfPrefix<V>(buckets: seq<seq<Entry<V>>>, n: nat)
    requires n + 1 == |buckets|
    ensures Total(buckets) == Total(buckets[..n]) + |buckets[n]|
  {
    if n > 0 {
      assert buckets[..n][1..] == buckets[1..][..n - 1];
      TotalOfPrefix(buckets[1..], n - 1);
    }
  }

  ghost predicate HoldsExactly<V>(m: map<Key, Option<V>>, items: seq<Entry<V>>) {
    && (forall k :: k in m ==> m[k] != None && Entry(k, m[k]) in items)
    && forall e :: e in items && e.value != None ==> e.key in m && m[e.key] == e.value
  }

  lemma {:induction false} HoldsOneMore<V>(m: map<Key, Option<V>>, items: seq<Entry<V>>, e: Entry<V>)
    requires HoldsExactly(m, items) && e.value != None
    requires forall f :: f in items && f.key == e.key ==> f == e
    ensures HoldsExactly(m[e.key := e.value], items + [e])
  {
    var r := m[e.key := e.value];
    forall k | k in r ensures r[k] != None && Entry(k, r[k]) in items + [e] {
      if k == e.key {
        assert Entry(k, r[k]) == e;
      }
    }
  }

  /** Moving the entries across loses nothing observable: only NULL values are dropped. */
  lemma {:induction false} SetAllRefinesMap<V>(t: Table<V>, items: seq<Entry<V>>)
    requires WellFormed(t) && ToMap(t) == map[] && t.size == 0
    requires |items| <= t.capacity
    requires forall e, f :: e in items && f in items && e.key == f.key ==> e == f
    ensures var r := SetAll(t, items); WellFormed(r) && r.size <= |items| && HoldsExactly(ToMap(r), items)
  {
    if items != [] {
      var n := |items| - 1;
      var e := items[n];
      var u := SetAll(t, items[..n]);
      SetAllRefinesMap(t, items[..n]);
      assert items == items[..n] + [e];
      if e.value != None {
        SetRefinesMap(u, e.key, e.value);
        assert !Refuses(u, e.key);
        HoldsOneMore(ToMap(u), items[..n], e);
      } else {
        assert forall f :: f in items && f.value != None ==> f in items[..n];
      }
    }
  }

  ghost predicate Lists<V>(items: seq<Entry<V>>, m: map<Key, Option<V>>) {
    && (forall e :: e in items ==> e.key in m && m[e.key] == e.value)
    && forall k :: k in m ==> Entry(k, m[k]) in items
  }

  lemma {:induction false} ItemsAreTheMap<V>(t: Table<V>)
    requires WellFormed(t)
    ensures Lists(Items(t.buckets), ToMap(t))
  {
    ItemsOf(t.buckets);
    forall e | e in Items(t.buckets) ensures e.key in ToMap(t) && ToMap(t)[e.key] == e.value {
      assert InSome(t.buckets, e);
      var b :| 0 <= b < |t.buckets| && e in t.buckets[b];
      var i :| 0 <= i < |t.buckets[b]| && e == t.buckets[b][i];
      KeySetByBucket(t, e.key);
      FindEntryAt(t.buckets[b], i);
    }
    forall k | k in ToMap(t) ensures Entry(k, ToMap(t)[k]) in Items(t.buckets) {
      KeySetByBucket(t, k);
      var es := Bucket(t, k);
      var i :| 0 <= i < |es| && es[i].key == k;
      FindEntryAt(es, i);
      assert es[i] in t.buckets[Index(k, t.capacity)];
      assert InSome(t.buckets, es[i]);
    }
  }

  lemma {:induction false} RehashRefinesMap<V>(t: Table<V>, capacity: nat)
    requires WellFormed(t) && t.size <= capacity && 0 < capacity
    ensures var r := SetAll(Empty(capacity), Items(t.buckets));
      && WellFormed(r) && r.capacity == capacity && r.size <= t.size
      && ToMap(r) == NonNull(ToMap(t))
  {
    ItemsOf(t.buckets);
    ItemsAreTheMap(t);
    EmptyIsWellFormed<V>(capacity);
    SetAllLists(Empty(capacity), Items(t.buckets), ToMap(t));
  }

  lemma {:induction false} SetAllLists<V>(t: Table<V>, items: seq<Entry<V>>, m: map<Key, Option<V>>)
    requires WellFormed(t) && ToMap(t) == map[] && t.size == 0
    requires |items| <= t.capacity && Lists(items, m)
    ensures var r := SetAll(t, items); WellFormed(r) && r.size <= |items| && ToMap(r) == NonNull(m)
  {
    forall e, f | e in items && f in items && e.key == f.key ensures e == f {
      assert m[e.key] == e.value == f.value;
    }
    SetAllRefinesMap(t, items);
  }

  /** Growth loses nothing observable: every key reads as before. */
  lemma {:induction false} RehashKeepsGet<V>(t: Table<V>, capacity: nat, key: Key)
    requires WellFormed(t) && t.size <= capacity && 0 < capacity
    ensures Get(SetAll(Empty(capacity), Items(t.buckets)), key) == Get(t, key)
  {
    RehashRefinesMap(t, capacity);
    GetRefinesMap(t, key);
    GetRefinesMap(SetAll(Empty(capacity), Items(t.buckets)), key);
  }

  // ---- What a lookup can observe ---------------------------------------------------------------------

  /** The entries that read as something: a NULL value reads like an absent key. */
  ghost function Observed<V>(t: Table<V>): map<Key, V>
    requires 0 < t.capacity == |t.buckets|
  {
    map k | k in ToMap(t) && ToMap(t)[k] != None :: ToMap(t)[k].value
  }

  lemma {:induction false} GetObserves<V>(t: Table<V>, key: Key)
    requires WellFormed(t)
    ensures Get(t, key) == if key != 0 && key in Observed(t) then Some(Observed(t)[key]) else None
  {
    GetRefinesMap(t, key);
  }

  lemma {:induction false} SetObserves<V>(t: Table<V>, key: Key, value: Option<V>)
    requires WellFormed(t) && t.size < t.capacity
    ensures var r := Set(t, key, value);
      && WellFormed(r) && r.size <= t.size + 1 && r.capacity == t.capacity
      && Observed(r) == if value == None then Observed(t) - {key} else Observed(t)[key := value.value]
  {
    hide ToMap, WellFormed, Set;
    SetRefinesMap(t, key, value);
  }

  lemma {:induction false} DelObserves<V>(t: Table<V>, key: Key)
    requires WellFormed(t)
    ensures var r := Del(t, key); WellFormed(r) && r.size <= t.size && Observed(r) == Observed(t) - {key}
  {
    hide ToMap, WellFormed, Del;
    DelRefinesMap(t, key);
  }

  lemma {:induction false} RehashObserves<V>(t: Table<V>, capacity: nat)
    requires WellFormed(t) && t.size <= capacity && 0 < capacity
    ensures var r := SetAll(Empty(capacity), Items(t.buckets));
      && WellFormed(r) && r.capacity == capacity && r.size <= t.size && Observed(r) == Observed(t)
  {
    RehashRefinesMap(t, capacity);
  }

  lemma {:induction false} EntryObserved<V>(t: Table<V>, b: nat, i: nat)
    requires WellFormed(t) && b < |t.buckets| && i < |t.buckets[b]|
    ensures var e := t.buckets[b][i];
      && e.key in KeySet(t)
      && (e.value != None ==> e.key in Observed(t) && Observed(t)[e.key] == e.value.value)
  {
    FindEntryAt(t.buckets[b], i);
    assert t.buckets[b][i].key in KeySet(t);
  }
}
