/** The recency queue and the LRU cache of src/cache.c on the heap, proved against `LruModel`. */
module LruCaches {
  import opened Common
  import opened DoublyLinkedLists
  import opened HashTables
  import opened LruModel
  import HashModel

  /** A queue item owns its value; the key only identifies it. */
  type QueueItem<V> = Item<Pair<V>>

  ghost function ItemValues<V>(items: seq<QueueItem<V>>): (vs: seq<V>)
    ensures |vs| == |items|
  {
    seq(|items|, i requires 0 <= i < |items| => items[i].content.value)
  }

  lemma {:induction false} FrontIsFirst<T>(xs: seq<Item<T>>, k: nat)
    requires DoublyLinked(xs) && k < |xs| && xs[k] == xs[0]
    ensures MoveToFront(xs, k) == xs
  {
  }

  lemma {:induction false} LastAfterMove<T>(xs: seq<Item<T>>, k: nat)
    requires 0 < k < |xs|
    ensures var ys := [xs[k]] + Removed(xs, k);
      && ys == MoveToFront(xs, k) && ys[0] == xs[k]
      && At(ys, |xs| - 1) == At(xs, if k == |xs| - 1 then k - 1 else |xs| - 1)
      && At(Removed(xs, k), 0) == xs[0]
      && forall x :: x in Removed(xs, k) ==> x in xs
  {
  }

  class Queue<V> {
    var count: nat
    var capacity: nat
    var front: Item?<Pair<V>>
    var rear: Item?<Pair<V>>
    ghost var items: seq<QueueItem<V>>
    ghost var freed: seq<V>  // the values handed to the deallocator, in order

    ghost var Repr: set<object>

    ghost predicate Valid()
      reads this, Repr
      ensures Valid() ==> this in Repr && |items| <= capacity && rear == At(items, |items| - 1)
    {
      && this in Repr && (forall x :: x in items ==> x in Repr)
      && DoublyLinked(items)
      && front == At(items, 0) && rear == At(items, |items| - 1)
      && count == |items| <= capacity
    }

    constructor (capacity: nat)
      ensures Valid() && fresh(Repr) && this.capacity == capacity && items == [] && freed == []
    {
      this.capacity, count, front, rear := capacity, 0, null, null;
      items, freed, Repr := [], [], {this};
    }

    method IsFull() returns (full: bool)
      requires Valid()
      ensures full <==> |items| == capacity
    {
      full := count == capacity;
    }

    method IsEmpty() returns (empty: bool)
      requires Valid()
      ensures empty <==> items == []
    {
      empty := rear == null;
    }

    /** Unlink the item at the rear. */
    method Dequeue() returns (value: Option<V>)
      requires Valid()
      modifies Repr
      ensures Valid() && Repr == old(Repr) && capacity == old(capacity) && freed == old(freed)
      ensures old(items) == [] ==> value == None && items == []
      ensures old(items) != [] ==>
        items == old(items)[..|old(items)| - 1] && value == Some(old(items)[|old(items)| - 1].content.value)
    {
      var empty := IsEmpty();
      if empty {
        return None;
      }
      if front == rear {
        front := null;
      }
      var temp := rear;
      rear := rear.prev;
      CutLast(rear, items);
      items := items[..|items| - 1];
      count := count - 1;
      value := Some(temp.content.value);
    }

    /** Link a new item at the front, unless the queue is full. */
    method Enqueue(value: V, key: Key) returns (item: Item?<Pair<V>>)
      requires Valid()
      modifies Repr
      ensures Valid() && fresh(Repr - old(Repr)) && capacity == old(capacity) && freed == old(freed)
      ensures |old(items)| == capacity ==> item == null && items == old(items)
      ensures |old(items)| < capacity ==>
        item != null && fresh(item) && item.content == Pair(key, value) && items == [item] + old(items)
    {
      hide DoublyLinked;
      var full := IsFull();
      if full {
        return null;
      }
      item := new Item(Pair(key, value));
      PushFront(item, front, items);
      if rear == null {
        rear := item;
      }
      front := item;
      items := [item] + items;
      Repr := Repr + {item};
      count := count + 1;
    }

    /** Relink an item of the queue to the front. */
    method BringToFront(item: QueueItem<V>, ghost i: nat)
      requires Valid() && i < |items| && items[i] == item
      modifies Repr
      ensures Valid() && Repr == old(Repr) && capacity == old(capacity) && freed == old(freed)
      ensures items == MoveToFront(old(items), i)
    {
      hide DoublyLinked, MoveToFront, Removed;
      if item != front {
        ghost var rest := Removed(items, i);
        LastAfterMove(items, i);
        LinksOf(items, i);
        Unlink(item, items, i);
        if item == rear {
          rear := item.prev;
        }
        PushFront(item, front, rest);
        front := item;
        items := [item] + rest;
      } else {
        FrontIsFirst(items, i);
      }
    }

    method Grow()
      requires Valid()
      modifies this
      ensures Valid() && Repr == old(Repr) && items == old(items) && freed == old(freed)
      ensures capacity == 2 * old(capacity)
    {
      capacity := 2 * capacity;
    }

    /** Dequeue, and hand the value over to the deallocator. */
    method DropRear()
      requires Valid() && items != []
      modifies Repr
      ensures Valid() && Repr == old(Repr) && capacity == old(capacity)
      ensures var n := |old(items)| - 1;
        items == old(items)[..n] && freed == old(freed) + [old(items)[n].content.value]
    {
      var gone := Dequeue();
      if gone != None {
        freed := freed + [gone.value];
      }
    }

    /** Deallocate every value, from the front to the rear. */
    method Destroy()
      requires Valid()
      modifies this
      ensures freed == old(freed) + ItemValues(items)
      ensures items == old(items)
    {
      ghost var n := 0;
      var item := front;
      while item != null
        invariant 0 <= n <= |items| && item == At(items, n)
        invariant items == old(items) && DoublyLinked(items)
        invariant freed == old(freed) + ItemValues(items)[..n]
        decreases |items| - n
      {
        var next := item.next;
        freed := freed + [item.content.value];
        item, n := next, n + 1;
      }
    }
  }

  // ---- The cache ------------------------------------------------------------------------------------

  ghost function Pairs<V>(items: seq<QueueItem<V>>): (ps: seq<Pair<V>>)
    ensures |ps| == |items|
    ensures forall i :: 0 <= i < |ps| ==> ps[i] == items[i].content
  {
    seq(|items|, i requires 0 <= i < |items| => items[i].content)
  }

  /** The hash domain is the queue's keys, and each key points at its own queue item. */
  ghost predicate Indexed<V>(m: map<Key, Option<QueueItem<V>>>, items: seq<QueueItem<V>>) {
    && (forall k :: k in m <==> k in Keys(Pairs(items)))
    && (forall item :: item in items ==> item.content.key in m && m[item.content.key] == Some(item))
  }

  /** The capacity of the hash table that goes with a queue: `(capacity * 4 / 3) | 1`. */
  function HashCapacity(capacity: nat): (c: nat)
    ensures c >= capacity && c > 0
    ensures c % 2 == 1 && 4 * capacity <= 3 * c + 2 && 3 * c <= 4 * capacity + 3
  {
    var x := capacity * 4 / 3;
    if x % 2 == 0 then x + 1 else x
  }

  lemma {:induction false} PairsOfFront<V>(items: seq<QueueItem<V>>, i: nat)
    requires i < |items|
    ensures Pairs(MoveToFront(items, i)) == MoveToFront(Pairs(items), i)
  {
  }

  lemma {:induction false} IndexedFront<V>(m: map<Key, Option<QueueItem<V>>>, items: seq<QueueItem<V>>, i: nat)
    requires Indexed(m, items) && i < |items|
    ensures Indexed(m, MoveToFront(items, i))
  {
    PairsOfFront(items, i);
    KeysOfFront(Pairs(items), i);
    MoveToFrontMembers(Keys(Pairs(items)), i);
    MoveToFrontMembers(items, i);
  }

  lemma {:induction false} IndexedItem<V>(m: map<Key, Option<QueueItem<V>>>, items: seq<QueueItem<V>>, key: Key)
    requires Indexed(m, items)
    ensures key in m <==> IndexOf(Pairs(items), key) < |items|
    ensures key in m ==> m[key] == Some(items[IndexOf(Pairs(items), key)])
  {
  }

  lemma {:induction false} IndexedNonNull<V>(m: map<Key, Option<QueueItem<V>>>, items: seq<QueueItem<V>>)
    requires Indexed(m, items)
    ensures HashModel.NonNull(m) == m
  {
    forall k | k in m ensures m[k] != None {
      IndexedItem(m, items, k);
    }
  }

  lemma {:induction false} IndexedAdd<V>(m: map<Key, Option<QueueItem<V>>>, items: seq<QueueItem<V>>,
          item: QueueItem<V>)
    requires Indexed(m, items) && item.content.key !in m
    ensures Pairs([item] + items) == [item.content] + Pairs(items)
    ensures Indexed(m[item.content.key := Some(item)], [item] + items)
  {
    assert Pairs([item] + items) == [item.content] + Pairs(items);
    assert Keys(Pairs([item] + items)) == [item.content.key] + Keys(Pairs(items));
    forall i | 0 <= i < |items| ensures items[i].content.key != item.content.key {
      assert Keys(Pairs(items))[i] == items[i].content.key;
    }
  }

  lemma {:induction false} IndexedDropLast<V>(m: map<Key, Option<QueueItem<V>>>, items: seq<QueueItem<V>>)
    requires Indexed(m, items) && items != [] && Distinct(Keys(Pairs(items)))
    ensures var n := |items| - 1;
      && Pairs(items[..n]) == Pairs(items)[..n]
      && items[n].content.key in m && Indexed(m - {items[n].content.key}, items[..n])
  {
    var n := |items| - 1;
    var ks := Keys(Pairs(items));
    assert Pairs(items[..n]) == Pairs(items)[..n];
    assert Keys(Pairs(items[..n])) == ks[..n] && ks == ks[..n] + [items[n].content.key];
    forall i | 0 <= i < n ensures items[i].content.key != items[n].content.key {
      assert ks[i] == items[i].content.key && ks[n] == items[n].content.key;
    }
  }

  class LruCache<V> {
    const capacity: nat  // 0 stands for LRU_CACHE_EXPAND
    const queue: Queue<V>
    var hash: HashTable<QueueItem<V>>

    ghost var Repr: set<object>

    ghost predicate Valid()
      reads this, Repr
      ensures Valid() ==> this in Repr && queue in Repr
    {
      && this in Repr && queue in Repr && hash in Repr
      && queue.Repr <= Repr && hash.Repr <= Repr && queue.Repr !! hash.Repr
      && this !in queue.Repr && this !in hash.Repr
      && queue.Valid() && hash.Valid()
      && WellFormed(State())
      && (capacity == 0 || queue.capacity == capacity)
      && queue.capacity <= hash.capacity
      && hash.model.size <= |queue.items|
      && Indexed(HashModel.ToMap(hash.model), queue.items)
    }

    ghost function State(): Lru<V>
      reads this, queue
    {
      Lru(capacity == 0, queue.capacity, Pairs(queue.items), queue.freed)
    }

    lemma {:induction false} StateWellFormed()
      requires Valid()
      ensures WellFormed(State())
    {
    }

    constructor (capacity: nat)
      ensures Valid() && fresh(Repr)
      ensures State() == Lru(capacity == 0, if capacity == 0 then 1024 else capacity, [], [])
    {
      this.capacity := capacity;
      var limit := if capacity == 0 then 1024 else capacity;
      queue := new Queue(limit);
      hash := new HashTable(HashCapacity(limit));
      HashModel.EmptyIsWellFormed<QueueItem<V>>(HashCapacity(limit));
      new;
      Repr := {this} + queue.Repr + hash.Repr;
    }

    method IsFull() returns (full: bool)
      requires Valid()
      ensures full <==> |State().pairs| == State().limit
    {
      full := queue.IsFull();
    }

    method MaybeHit(key: Key) returns (value: Option<V>)
      requires Valid()
      modifies Repr
      ensures Valid() && fresh(Repr - old(Repr))
      ensures State() == Hit(old(State()), key) && value == HitValue(old(State()), key)
    {
      hide Valid, Pairs, MoveToFront;
      var item := Lookup(key);
      if item == None {
        return None;
      }
      Refresh(item.value, IndexOf(Pairs(queue.items), key));
      value := Some(item.value.content.value);
    }

    /** The queue item the hash table has for the key. */
    method Lookup(key: Key) returns (item: Option<QueueItem<V>>)
      requires Valid()
      ensures var i := IndexOf(Pairs(queue.items), key);
        item == if i < |queue.items| then Some(queue.items[i]) else None
    {
      hide HashTable.Valid, Queue.Valid, HashModel.ToMap, HashModel.WellFormed, HashModel.Get;
      HashModel.GetRefinesMap(hash.model, key);
      IndexedItem(HashModel.ToMap(hash.model), queue.items, key);
      item := hash.Get(key);
    }

    /** Bring an item to the front of the queue. */
    method Refresh(item: QueueItem<V>, ghost i: nat)
      requires Valid() && i < |queue.items| && queue.items[i] == item
      modifies Repr
      ensures Valid() && fresh(Repr - old(Repr))
      ensures State() == old(State()).(pairs := MoveToFront(old(State()).pairs, i))
    {
      hide HashTable.Valid, Queue.Valid, Indexed, Pairs, WellFormed, HashModel.ToMap, HashModel.WellFormed;
      IndexedFront(HashModel.ToMap(hash.model), queue.items, i);
      PairsOfFront(queue.items, i);
      FrontWellFormed(State(), i);
      queue.BringToFront(item, i);
    }

    method Store(key: Key, value: V)
      requires Valid() && key != 0 && key !in Keys(State().pairs)
      modifies Repr
      ensures Valid() && fresh(Repr - old(Repr))
      ensures State() == LruModel.Store(old(State()), key, value)
      ensures var s := old(State());
        State().limit == if |s.pairs| == s.limit && capacity == 0 then 2 * s.limit else s.limit
    {
      hide Valid;
      ghost var s := State();
      StateWellFormed();
      var full := IsFull();
      if full {
        if capacity == 0 {
          Expand();
        } else {
          Evict();
          assert Keys(State().pairs) == Keys(s.pairs)[..|s.pairs| - 1];
        }
      }
      Add(key, value);
    }

    /** Double the queue's capacity and move the items to a larger hash table. */
    method Expand()
      requires Valid() && capacity == 0
      modifies Repr
      ensures Valid() && fresh(Repr - old(Repr))
      ensures State() == old(State()).(limit := 2 * old(State()).limit)
    {
      hide HashTable.Valid, Queue.Valid, Indexed, Pairs, WellFormed, HashModel.ToMap, HashModel.WellFormed,
        HashModel.SetAll;
      GrowWellFormed(State());
      IndexedNonNull(HashModel.ToMap(hash.model), queue.items);
      queue.Grow();
      var table := new HashTable(HashCapacity(queue.capacity));
      HashModel.RehashRefinesMap(hash.model, table.capacity);
      hash.MoveTo(table);
      hash := table;
      Repr := Repr + hash.Repr;
    }

    /** Drop the least recently used item from the hash table and the queue, and deallocate it. */
    method Evict()
      requires Valid() && State().pairs != []
      modifies Repr
      ensures Valid() && fresh(Repr - old(Repr))
      ensures var s := old(State()); var n := |s.pairs| - 1;
        State() == s.(pairs := s.pairs[..n], freed := s.freed + [s.pairs[n].value])
    {
      hide HashTable.Valid, Queue.Valid, Indexed, Pairs, WellFormed, Keys, Distinct, HashModel.ToMap,
        HashModel.WellFormed, HashModel.Del;
      WellFormedKeys(State());
      EvictWellFormed(State());
      var key := queue.rear.content.key;
      HashModel.DelRefinesMap(hash.model, key);
      IndexedDropLast(HashModel.ToMap(hash.model), queue.items);
      hash.Del(key);
      assert queue.Valid() && State() == old(State());
      queue.DropRear();
      Repr := Repr + queue.Repr + hash.Repr;
    }

    /** Enqueue the value and index its new queue item. */
    method Add(key: Key, value: V)
      requires Valid() && |State().pairs| < State().limit && key != 0 && key !in Keys(State().pairs)
      modifies Repr
      ensures Valid() && fresh(Repr - old(Repr))
      ensures var s := old(State()); State() == s.(pairs := [Pair(key, value)] + s.pairs)
    {
      hide HashTable.Valid, Queue.Valid, Indexed, Pairs, WellFormed, HashModel.ToMap, HashModel.WellFormed,
        HashModel.Set, Keys, Distinct;
      ghost var s := State();
      AccessWellFormed(s, key, value);
      IndexedItem(HashModel.ToMap(hash.model), queue.items, key);
      var item := queue.Enqueue(value, key);
      HashModel.SetRefinesMap(hash.model, key, Some(item));
      IndexedAdd(HashModel.ToMap(hash.model), old(queue.items), item);
      hash.Set(key, Some(item));
      Repr := Repr + queue.Repr + hash.Repr;
    }

    method Destroy()
      requires Valid()
      modifies Repr
      ensures queue.freed == Destroyed(old(State())).freed
    {
      queue.Destroy();
    }
  }
}
