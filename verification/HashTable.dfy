/** The chained hash table of src/cache.c on the heap, proved against `HashModel`. */
module HashTables {
  import opened Common
  import opened HashModel

  /** A chain is an item of a linked list and the list that starts at it. */
  class Chain<V> {
    var next: Chain?<V>
    const key: Key
    var value: Option<V>
    ghost const home: int  // the bucket the node was created for

    constructor (key: Key, value: Option<V>, ghost home: int)
      ensures this.key == key && this.value == value && this.next == null && this.home == home
    {
      this.key, this.value, this.next := key, value, null;
      this.home := home;
    }

    method Add(key: Key, value: Option<V>, ghost ns: seq<Chain<V>>, ghost es: seq<Entry<V>>)
      returns (added: nat, ghost ns': seq<Chain<V>>)
      requires ns != [] && ns[0] == this && Linked(ns, es)
      requires forall n :: n in ns ==> n.home == home
      modifies ns
      ensures ns' != [] && ns'[0] == this && Linked(ns', AddEntry(es, key, value))
      ensures this.value == old(this.value)
      ensures added == if HasEntry(es, key) then 0 else 1
      ensures forall n :: n in ns' ==> n.home == home && (n in ns || fresh(n))
      decreases |ns|
    {
      if next == null {
        next := new Chain(key, value, home);
        return 1, ns + [next];
      }
      assert next == ns[1];
      if next.key == key {
        next.value := value;
        assert es[0].key == key;
        return 0, ns;
      }
      ghost var rest;
      added, rest := next.Add(key, value, ns[1..], es[1..]);
      ns' := [this] + rest;
      assert HasEntry(es, key) <==> HasEntry(es[1..], key) by { HasEntryTail(es, key); }
    }

    method Remove(key: Key, ghost ns: seq<Chain<V>>, ghost es: seq<Entry<V>>)
      returns (removed: nat, ghost ns': seq<Chain<V>>)
      requires ns != [] && ns[0] == this && Linked(ns, es)
      modifies ns
      ensures ns' != [] && ns'[0] == this && Linked(ns', RemoveEntry(es, key))
      ensures this.value == old(this.value)
      ensures removed == if HasEntry(es, key) then 1 else 0
      ensures forall n :: n in ns' ==> n in ns
      decreases |ns|
    {
      if next == null {
        return 0, ns;
      }
      assert next == ns[1];
      if next.key == key {
        var gone := next;
        next := gone.next;
        gone.next := null;
        ns' := [this] + ns[2..];
        assert es[0].key == key;
        return 1, ns';
      }
      ghost var rest;
      removed, rest := next.Remove(key, ns[1..], es[1..]);
      ns' := [this] + rest;
      assert HasEntry(es, key) <==> HasEntry(es[1..], key) by { HasEntryTail(es, key); }
    }

    /** The search begins at this node, so it also matches the sentinel's key. */
    method Find(key: Key, ghost ns: seq<Chain<V>>, ghost es: seq<Entry<V>>) returns (v: Option<V>)
      requires ns != [] && ns[0] == this && Linked(ns, es)
      ensures v == if this.key == key then this.value else FindEntry(es, key)
      decreases |ns|
    {
      if this.key == key {
        return value;
      }
      if next == null {
        return None;
      }
      v := next.Find(key, ns[1..], es[1..]);
    }

    method Has(key: Key, ghost ns: seq<Chain<V>>, ghost es: seq<Entry<V>>) returns (found: bool)
      requires ns != [] && ns[0] == this && Linked(ns, es)
      ensures found <==> this.key == key || HasEntry(es, key)
      decreases |ns|
    {
      if this.key == key {
        return true;
      }
      if next == null {
        return false;
      }
      found := next.Has(key, ns[1..], es[1..]);
      HasEntryTail(es, key);
    }
  }

  /** `ns` is a chain, head included, whose items after the head are `es`. */
  ghost predicate Linked<V>(ns: seq<Chain<V>>, es: seq<Entry<V>>)
    reads set n | n in ns
  {
    && |ns| == |es| + 1
    && ns[0] !in ns[1..]
    && if es == [] then ns[0].next == null
       else
         && ns[0].next == ns[1]
         && ns[1].key == es[0].key && ns[1].value == es[0].value
         && Linked(ns[1..], es[1..])
  }

  /** A bucket has no chain, or a sentinel followed by at least one item. */
  ghost predicate BucketShape<V>(chain: Chain?<V>, ns: seq<Chain<V>>, es: seq<Entry<V>>, b: nat)
    reads set n | n in ns
  {
    && (forall n :: n in ns ==> n.home == b)
    && if es == [] then ns == [] && chain == null
       else ns != [] && chain == ns[0] && chain.key == 0 && chain.value == None && Linked(ns, es)
  }

  class HashTable<V> {
    const capacity: nat
    const loadFactor: nat
    var size: nat
    const chains: array<Chain?<V>>
    ghost var nodes: seq<seq<Chain<V>>>
    ghost var model: Table<V>
    ghost var Repr: set<object>

    ghost predicate Valid()
      reads this, Repr
      ensures Valid() ==> this in Repr && 0 < capacity == model.capacity == |model.buckets| && WellFormed(model)
    {
      Shape() && size == model.size && WellFormed(model)
    }

    /** The heap structure mirrors the buckets of `model`. */
    ghost predicate Shape()
      reads this, Repr
      ensures Shape() ==> this in Repr
    {
      && this in Repr && chains in Repr
      && 0 < capacity && loadFactor == 3 * capacity / 4
      && model.capacity == capacity == chains.Length == |nodes| == |model.buckets|
      && (forall b :: 0 <= b < capacity ==> BucketValid(b))
    }

    ghost predicate BucketValid(b: nat)
      requires b < |nodes| == chains.Length == |model.buckets|
      reads this, Repr, chains
    {
      && (forall n :: n in nodes[b] ==> n in Repr)
      && BucketShape(chains[b], nodes[b], model.buckets[b], b)
    }

    lemma {:induction false} ChainOf(b: nat)
      requires Valid() && b < capacity
      ensures capacity == |nodes| == |model.buckets| == chains.Length && BucketValid(b)
    {
    }

    constructor (capacity: nat)
      requires capacity > 0
      ensures Valid() && fresh(Repr)
      ensures this.capacity == capacity && model == Empty(capacity)
    {
      this.capacity := capacity;
      loadFactor := 3 * capacity / 4;
      chains := new Chain?<V>[capacity](_ => null);
      size := 0;
      nodes := seq(capacity, _ => []);
      model := Empty(capacity);
      EmptyIsWellFormed<V>(capacity);
      new;
      Repr := {this, chains};
    }

    method Get(key: Key) returns (v: Option<V>)
      requires Valid()
      ensures v == HashModel.Get(model, key)
    {
      var b := Index(key, capacity);
      assert BucketValid(b);
      var chain := chains[b];
      if chain == null {
        return None;
      }
      v := chain.Find(key, nodes[b], model.buckets[b]);
    }

    method IsFull() returns (full: bool)
      requires Valid()
      ensures full <==> model.size >= 3 * model.capacity / 4
    {
      full := size >= loadFactor;
    }

    method Set(key: Key, value: Option<V>)
      requires Valid()
      modifies Repr
      ensures Valid() && fresh(Repr - old(Repr))
      ensures model == HashModel.Set(old(model), key, value)
    {
      var b := Index(key, capacity);
      assert BucketValid(b);
      ghost var m := HashModel.Set(model, key, value);
      assert WellFormed(m) by { SetRefinesMap(model, key, value); }
      var chain := chains[b];
      if chain == null {
        if size >= capacity {
          return;
        }
      } else {
        var found := chain.Has(key, nodes[b], model.buckets[b]);
        if size >= capacity && !found {
          return;
        }
      }
      var added;
      ghost var ns';
      added, ns' := AddAt(b, key, value);
      Commit(b, size + added, ns', m);
    }

    /** Record the new size, and in the ghost state the new nodes and entries of one bucket. */
    method Commit(ghost b: nat, newSize: nat, ghost ns: seq<Chain<V>>, ghost m: Table<V>)
      requires this in Repr && chains in Repr && b < capacity && loadFactor == 3 * capacity / 4
      requires model.capacity == capacity == chains.Length == |nodes| == |model.buckets|
      requires forall c :: 0 <= c < capacity && c != b ==> BucketValid(c)
      requires |m.buckets| == m.capacity == capacity && BucketShape(chains[b], ns, m.buckets[b], b)
      requires forall c :: 0 <= c < capacity && c != b ==> m.buckets[c] == model.buckets[c]
      modifies this
      ensures Shape() && model == m && size == newSize && Repr == old(Repr) + set n: object | n in ns
    {
      size := newSize;
      nodes, model, Repr := nodes[b := ns], m, Repr + set n: object | n in ns;
      assert BucketValid(b);
      forall c | 0 <= c < capacity && c != b ensures BucketValid(c) {
        assert old(BucketValid(c));
      }
    }

    /** Link the item into the bucket's chain, starting the chain at a sentinel if there is none. */
    method AddAt(b: nat, key: Key, value: Option<V>) returns (added: nat, ghost ns': seq<Chain<V>>)
      requires Shape() && b < capacity
      modifies chains, nodes[b]
      ensures unchanged(this)
      ensures forall n :: n in ns' ==> n in Repr || fresh(n)
      ensures BucketShape(chains[b], ns', AddEntry(model.buckets[b], key, value), b)
      ensures forall c :: 0 <= c < capacity && c != b ==> BucketValid(c)
      ensures added == if HasEntry(model.buckets[b], key) then 0 else 1
    {
      assert BucketValid(b);
      ghost var ns := nodes[b];
      if chains[b] == null {
        chains[b] := new Chain(0, None, b);
        ns := [chains[b]];
      }
      added, ns' := chains[b].Add(key, value, ns, model.buckets[b]);
      forall c | 0 <= c < capacity && c != b ensures BucketValid(c) {
        assert old(BucketValid(c));
        assert forall n :: n in nodes[c] ==> n !in ns;
      }
    }

    method Del(key: Key)
      requires Valid()
      modifies Repr
      ensures Valid() && fresh(Repr - old(Repr))
      ensures model == HashModel.Del(old(model), key)
    {
      var b := Index(key, capacity);
      assert BucketValid(b);
      TotalAtLeast(model.buckets, b);
      ghost var m := HashModel.Del(model, key);
      assert WellFormed(m) by { DelWellFormed(model, key); }
      if size == 0 {
        return;
      }
      if chains[b] == null {
        return;
      }
      var removed;
      ghost var ns';
      removed, ns' := RemoveAt(b, key);
      RemoveEntryShape(model.buckets[b], key);
      Commit(b, size - removed, ns', m);
    }

    /** Unlink the item from the bucket's chain and drop a chain that is left with no item. */
    method RemoveAt(b: nat, key: Key) returns (removed: nat, ghost ns': seq<Chain<V>>)
      requires Shape() && b < capacity && chains[b] != null
      modifies chains, nodes[b]
      ensures unchanged(this)
      ensures forall n :: n in ns' ==> n in Repr
      ensures BucketShape(chains[b], ns', RemoveEntry(model.buckets[b], key), b)
      ensures forall c :: 0 <= c < capacity && c != b ==> BucketValid(c)
      ensures removed == if HasEntry(model.buckets[b], key) then 1 else 0
    {
      assert BucketValid(b);
      ghost var ns := nodes[b];
      removed, ns' := chains[b].Remove(key, ns, model.buckets[b]);
      if chains[b].next == null {
        chains[b] := null;
        ns' := [];
      }
      forall c | 0 <= c < capacity && c != b ensures BucketValid(c) {
        assert old(BucketValid(c));
        assert forall n :: n in nodes[c] ==> n !in ns;
      }
    }

    /** The growth loop: walk every chain past its sentinel and set what is not NULL into `dest`. */
    method MoveTo(dest: HashTable<V>)
      requires Valid() && dest.Valid() && Repr !! dest.Repr
      modifies dest.Repr
      ensures dest.Valid() && fresh(dest.Repr - old(dest.Repr))
      ensures dest.model == SetAll(old(dest.model), Items(model.buckets))
    {
      var i := 0;
      while i < capacity
        invariant 0 <= i <= capacity
        invariant dest.Valid() && fresh(dest.Repr - old(dest.Repr))
        invariant dest.model == SetAll(old(dest.model), Items(model.buckets[..i]))
      {
        assert BucketValid(i);
        assert model.buckets[..i + 1][..i] == model.buckets[..i];
        MoveChain(chains[i], dest, nodes[i], model.buckets[i], Items(model.buckets[..i]), old(dest.model));
        i := i + 1;
      }
      assert model.buckets[..capacity] == model.buckets;
    }
  }

  lemma {:induction false} SetAllOneMore<V>(t: Table<V>, es: seq<Entry<V>>, e: Entry<V>)
    requires 0 < t.capacity == |t.buckets|
    ensures SetAll(t, es + [e]) ==
            if e.value == None then SetAll(t, es) else HashModel.Set(SetAll(t, es), e.key, e.value)
  {
    hide HashModel.Set;
    assert (es + [e])[..|es|] == es;
  }

  /** One bucket of the growth loop. */
  method MoveChain<V>(head: Chain?<V>, dest: HashTable<V>, ghost ns: seq<Chain<V>>, ghost es: seq<Entry<V>>,
                      ghost before: seq<Entry<V>>, ghost t: Table<V>)
    requires dest.Valid() && 0 < t.capacity == |t.buckets| && dest.model == SetAll(t, before)
    requires if head == null then es == [] else ns != [] && ns[0] == head && Linked(ns, es)
    requires forall n: object :: n in ns ==> n !in dest.Repr
    modifies dest.Repr
    ensures dest.Valid() && fresh(dest.Repr - old(dest.Repr))
    ensures dest.model == SetAll(t, before + es)
  {
    hide HashTable.Valid, SetAll, HashModel.Set;
    var chain := head;
    ghost var j := 0;
    assert before + es[..0] == before;
    if chain == null {
      return;
    }
    while chain.next != null
      invariant chain != null && 0 <= j <= |es| && |ns| == |es| + 1
      invariant chain == ns[j] && Linked(ns[j..], es[j..])
      invariant dest.Valid() && fresh(dest.Repr - old(dest.Repr))
      invariant dest.model == SetAll(t, before + es[..j])
      decreases |es| - j
    {
      chain := chain.next;
      assert ns[j..][1..] == ns[j + 1..] && es[j..][1..] == es[j + 1..];
      assert before + es[..j + 1] == before + es[..j] + [es[j]];
      SetAllOneMore(t, before + es[..j], es[j]);
      if chain.value != None {
        dest.Set(chain.key, chain.value);
      }
      j := j + 1;
    }
    assert es[..j] == es;
  }
}
