/** The expandable lookup of src/cache.c: a hash table that doubles at its load factor. */
module Lookups {
  import opened Common
  import opened HashTables
  import HashModel

  class Lookup<V> {
    var hash: HashTable<V>
    ghost var Repr: set<object>

    /** The load factor keeps the table below its capacity, so no set of a new key is dropped. */
    ghost predicate Valid()
      reads this, Repr
      ensures Valid() ==> this in Repr && hash in Repr && HashModel.WellFormed(hash.model)
    {
      && this in Repr && hash in Repr && hash.Repr <= Repr && this !in hash.Repr
      && hash.Valid() && hash.model.size <= 3 * hash.model.capacity / 4
    }

    ghost function Map(): map<Key, V>
      requires Valid()
      reads this, Repr
    {
      HashModel.Observed(hash.model)
    }

    constructor (size: nat)
      requires size > 0
      ensures Valid() && fresh(Repr) && Map() == map[]
    {
      hash := new HashTable(size);
      HashModel.EmptyIsWellFormed<V>(size);
      new;
      Repr := {this} + hash.Repr;
    }

    method Get(key: Key) returns (v: Option<V>)
      requires Valid()
      ensures v == if key != 0 && key in Map() then Some(Map()[key]) else None
    {
      HashModel.GetObserves(hash.model, key);
      v := hash.Get(key);
    }

    method Set(key: Key, value: Option<V>)
      requires Valid()
      modifies Repr
      ensures Valid() && fresh(Repr - old(Repr))
      ensures Map() == if value == None then old(Map()) - {key} else old(Map())[key := value.value]
    {
      hide HashTable.Valid, HashModel.WellFormed, HashModel.Observed, HashModel.Set, HashModel.Refuses;
      var full := hash.IsFull();
      if full {
        Grow();
      }
      HashModel.SetObserves(hash.model, key, value);
      hash.Set(key, value);
      Repr := Repr + hash.Repr;
    }

    /** Double the hash table and move the items across. */
    method Grow()
      requires Valid()
      modifies Repr
      ensures Valid() && fresh(Repr - old(Repr)) && Map() == old(Map())
      ensures hash.capacity == 2 * old(hash.capacity) && hash.model.size + 1 <= 3 * hash.model.capacity / 4
    {
      hide HashTable.Valid, HashModel.WellFormed, HashModel.Observed, HashModel.SetAll, HashModel.Items;
      var table := new HashTable(2 * hash.capacity);
      HashModel.RehashObserves(hash.model, table.capacity);
      hash.MoveTo(table);
      hash := table;
      Repr := Repr + hash.Repr;
    }

    method Del(key: Key)
      requires Valid()
      modifies Repr
      ensures Valid() && fresh(Repr - old(Repr)) && Map() == old(Map()) - {key}
    {
      HashModel.DelObserves(hash.model, key);
      hash.Del(key);
      Repr := Repr + hash.Repr;
    }

    method Clear()
      requires Valid()
      modifies this
      ensures Valid() && fresh(Repr - old(Repr)) && Map() == map[] && hash.capacity == old(hash.capacity)
    {
      var size := hash.capacity;
      hash := new HashTable(size);
      HashModel.EmptyIsWellFormed<V>(size);
      Repr := Repr + hash.Repr;
    }
  }
}
