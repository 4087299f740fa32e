/** The process list of src/py_proc_list.c: a linked list of processes mirrored by a pid index. */
module ProcLists {
  import opened Common
  import opened DoublyLinkedLists
  import opened ProcWorlds
  import opened HashTables
  import opened Lookups
  import HashModel

  class Proc {
    const pid: Key

    constructor (pid: Key)
      ensures this.pid == pid
    {
      this.pid := pid;
    }
  }

  // ---- The list -----------------------------------------------------------------------------------

  ghost function Pids(items: seq<Item<Proc>>): set<Key> {
    set item | item in items :: item.content.pid
  }

  /** The index has exactly the listed pids and points at their processes. */
  ghost predicate Mirrors(m: map<Key, Proc>, items: seq<Item<Proc>>) {
    && m.Keys == Pids(items) && 0 !in m
    && (forall item :: item in items ==> item.content.pid in m && m[item.content.pid] == item.content)
    && UniquePids(items)
  }

  ghost predicate UniquePids(items: seq<Item<Proc>>) {
    forall i, j :: 0 <= i < j < |items| ==> items[i].content.pid != items[j].content.pid
  }

  lemma {:induction false} UniqueRemoved(items: seq<Item<Proc>>, k: nat)
    requires UniquePids(items) && k < |items|
    ensures UniquePids(Removed(items, k))
    ensures forall x :: x in Removed(items, k) <==> x in items && x.content.pid != items[k].content.pid
  {
    var rest := Removed(items, k);
    RemovedMembers(items, k);
    forall i, j | 0 <= i < j < |rest| ensures rest[i].content.pid != rest[j].content.pid {
      assert rest[i] == items[if i < k then i else i + 1] && rest[j] == items[if j < k then j else j + 1];
    }
    forall x | x in items && x != items[k] ensures x.content.pid != items[k].content.pid {
      var i :| 0 <= i < |items| && items[i] == x;
    }
  }

  lemma {:induction false} MirrorsAdd(m: map<Key, Proc>, items: seq<Item<Proc>>, item: Item<Proc>)
    requires Mirrors(m, items) && item.content.pid !in Pids(items) && item.content.pid != 0
    ensures Mirrors(m[item.content.pid := item.content], [item] + items)
    ensures Pids([item] + items) == Pids(items) + {item.content.pid}
  {
    forall i | 0 <= i < |items| ensures items[i].content.pid != item.content.pid {
      assert items[i] in items;
    }
    assert Pids([item] + items) == Pids(items) + {item.content.pid};
  }

  lemma {:induction false} MirrorsRemove(m: map<Key, Proc>, items: seq<Item<Proc>>, k: nat)
    requires Mirrors(m, items) && k < |items|
    ensures Mirrors(m - {items[k].content.pid}, Removed(items, k))
    ensures Pids(Removed(items, k)) == Pids(items) - {items[k].content.pid}
  {
    hide UniquePids;
    UniqueRemoved(items, k);
  }

  /** The items belong to the list and not to its index. */
  ghost predicate AllIn(items: seq<Item<Proc>>, all: set<object>, index: set<object>) {
    forall item :: item in items ==> item in all && item !in index
  }

  class ProcList {
    var count: nat
    var first: Item?<Proc>
    const procForPid: Lookup<Proc>
    const ppidForPid: Lookup<Pid>
    ghost var items: seq<Item<Proc>>
    ghost var destroyed: seq<Proc>
    ghost var Repr: set<object>  // everything but the parent table

    ghost predicate Valid()
      reads this, Repr
      ensures Valid() ==> this in Repr
    {
      && this in Repr && procForPid in Repr && procForPid.Repr <= Repr && this !in procForPid.Repr
      && AllIn(items, Repr, procForPid.Repr)
      && DoublyLinked(items) && first == At(items, 0) && count == |items|
      && procForPid.Valid()
      && Mirrors(procForPid.Map(), items)
    }

    constructor (parent: Proc)
      requires parent.pid != 0
      ensures Valid() && fresh(Repr) && Pids(items) == {parent.pid} && destroyed == []
      ensures Ready() && fresh(ppidForPid.Repr) && ppidForPid.Map() == map[]
    {
      hide Valid, Lookup.Valid, Lookup.Map, Pids, Mirrors, DoublyLinked, At, AllIn;
      procForPid := new Lookup(256);
      ppidForPid := new Lookup(1024);
      first, count, items, destroyed := null, 0, [], [];
      new;
      Begin(parent);
    }

    method Begin(parent: Proc)
      requires procForPid in procForPid.Repr && this !in procForPid.Repr && parent.pid != 0
      requires items == [] && first == null && count == 0 && procForPid.Valid() && procForPid.Map() == map[]
      modifies this, procForPid.Repr
      ensures Valid() && fresh(Repr - {this} - old(procForPid.Repr)) && destroyed == old(destroyed)
      ensures Pids(items) == {parent.pid}
    {
      hide Valid, Lookup.Valid, Lookup.Map, Pids, Mirrors, DoublyLinked, At, AllIn;
      Repr := {this} + procForPid.Repr;
      EmptyIsValid();
      Add(parent);
    }

    lemma {:induction false} EmptyIsValid()
      requires Repr == {this} + procForPid.Repr && procForPid in procForPid.Repr && this !in procForPid.Repr
      requires items == [] && first == null && count == 0 && procForPid.Valid() && procForPid.Map() == map[]
      ensures Valid() && Pids(items) == {}
    {
      hide Lookup.Valid, Lookup.Map;
    }

    method HasPid(pid: Key) returns (found: bool)
      requires Valid()
      ensures found <==> pid in Pids(items)
    {
      var proc := procForPid.Get(pid);
      found := proc != None;
    }

    method Add(proc: Proc)
      requires Valid() && proc.pid != 0 && proc.pid !in Pids(items)
      modifies Repr
      ensures Valid() && fresh(Repr - old(Repr)) && destroyed == old(destroyed)
      ensures |items| == |old(items)| + 1 && items[1..] == old(items) && fresh(items[0]) && items[0].content == proc
      ensures Pids(items) == old(Pids(items)) + {proc.pid}
    {
      hide Lookup.Valid, Lookup.Map, Mirrors, Pids, DoublyLinked, At;
      ghost var m := procForPid.Map();
      var item := new Item(proc);
      MirrorsAdd(m, items, item);
      Link(item);
      procForPid.Set(proc.pid, Some(proc));
      Repr := Repr + {item} + procForPid.Repr;
    }

    /** Put an item in front of the list, which is not indexed yet. */
    method Link(item: Item<Proc>)
      requires DoublyLinked(items) && first == At(items, 0) && item !in items
      modifies this`first, this`count, this`items, item, set x | x in items
      ensures DoublyLinked(items) && first == At(items, 0) && items == [item] + old(items) && count == old(count) + 1
    {
      hide DoublyLinked;
      PushFront(item, first, items);
      first := item;
      items := [item] + items;
      count := count + 1;
    }

    lemma {:induction false} FirstIs()
      requires Valid()
      ensures first == At(items, 0)
    {
    }

    method Remove(item: Item<Proc>, ghost k: nat)
      requires Valid() && k < |items| && items[k] == item
      modifies Repr
      ensures Valid() && fresh(Repr - old(Repr)) && destroyed == old(destroyed) + [item.content]
      ensures items == Removed(old(items), k) && item.next == old(item.next)
      ensures Pids(items) == old(Pids(items)) - {item.content.pid}
    {
      hide Lookup.Valid, Lookup.Map, Mirrors, Pids, DoublyLinked, At, Removed;
      MirrorsRemove(procForPid.Map(), items, k);
      LinksOf(items, k);
      FirstOfRemoved(items, k);
      FirstIs();
      assert At(items, 0) == items[0] by { AtIndex(items, 0); }
      procForPid.Del(item.content.pid);
      if item == first {
        first := item.next;
      }
      Unlink(item, items, k);
      items := Removed(items, k);
      destroyed := destroyed + [item.content];
      count := count - 1;
      Repr := Repr + procForPid.Repr;
    }

    // ---- Discovery of child processes ----------------------------------------------------------------

    /** The parent table is apart from the list. */
    ghost predicate Ready()
      reads this, ppidForPid, ppidForPid.Repr
    {
      ppidForPid.Valid() && ppidForPid.Repr !! Repr
    }

    ghost function WorldOf(attachable: set<Key>): World
      requires ppidForPid.Valid()
      reads ppidForPid, ppidForPid.Repr
    {
      World(ppidForPid.Map(), attachable)
    }

    /** What may still be added. */
    ghost function Missing(): set<Key>
      requires ppidForPid.Valid()
      reads this, ppidForPid, ppidForPid.Repr
    {
      ppidForPid.Map().Keys - Pids(items)
    }

    /** New items were only put in front of the old ones. */
    twostate predicate Prepended()
      reads this, Repr
    {
      && fresh(Repr - old(Repr)) && destroyed == old(destroyed)
      && |items| >= |old(items)| && items[|items| - |old(items)|..] == old(items)
    }

    lemma {:induction false} TableFacts()
      requires Ready()
      ensures var table := ppidForPid.hash;
        && table.Valid() && table in ppidForPid.Repr && table.Repr <= ppidForPid.Repr
        && table.capacity == table.model.capacity == |table.model.buckets| == |table.nodes| == table.chains.Length
        && HashModel.WellFormed(table.model)
        && ppidForPid.Map() == HashModel.Observed(table.model)
    {
    }

    /** Add the attachable children of a process, their children, and so on. */
    method AddProcChildren(ppid: Key, attachable: set<Key>)
      requires Valid() && Ready() && 0 !in attachable
      modifies Repr
      ensures Valid() && Ready() && Prepended()
      ensures LeastClosed(WorldOf(attachable), old(Pids(items)), ppid, Pids(items) - old(Pids(items)))
      ensures Grown(WorldOf(attachable), old(Pids(items)), Pids(items), ppid)
      ensures ChildrenListed(WorldOf(attachable), Pids(items), ppid)
      decreases Missing(), 3
    {
      hide Valid, Pids, Grown, ChildrenListed, LeastClosed, Scanned, Lookup.Valid, Lookup.Map, HashTable.Valid,
        HashModel.WellFormed, HashModel.KeySet, HashModel.ToMap, HashModel.Observed;
      ghost var w, before, buckets := WorldOf(attachable), Pids(items), ppidForPid.hash.model.buckets;
      TableFacts();
      GrownAtFirst(w, before, ppid);
      ScannedNone(before, attachable, ppid);
      var table := ppidForPid.hash;
      var i := 0;
      while i < table.capacity
        invariant 0 <= i <= table.capacity
        invariant Valid() && Ready() && Prepended()
        invariant Grown(w, before, Pids(items), ppid)
        invariant Scanned(HashModel.Items(buckets[..i]), Pids(items), attachable, ppid)
      {
        assert buckets[..i + 1][..i] == buckets[..i];
        ghost var listed := Pids(items);
        GrownIncludes(w, before, listed, ppid);
        ScanChain(table.chains[i], i, ppid, attachable, before);
        ScannedMore(HashModel.Items(buckets[..i]), buckets[i], listed, Pids(items), attachable, ppid);
        i := i + 1;
      }
      assert buckets[..i] == buckets;
      ScannedAll(table.model, Pids(items), attachable, ppid);
      GrownIsLeast(w, before, Pids(items), ppid);
    }

    /**
     The pass of an update over the list: add the children of the running processes, which go in
     front of the list, and remove and destroy the others.  Nothing is added but what the running ones
     lead to; and all of that, exactly when no process that is not running is still listed too late.
     */
    method AttachAndPrune(running: set<Key>, attachable: set<Key>) returns (ghost added: seq<Item<Proc>>)
      requires Valid() && Ready() && 0 !in attachable
      modifies Repr
      ensures Valid() && Ready() && fresh(Repr - old(Repr))
      ensures items == added + Running(old(items), running)
      ensures destroyed == old(destroyed) + Dead(old(items), running)
      ensures var w, kept := WorldOf(attachable), Pids(Running(old(items), running));
        && NothingElse(w, kept, kept, Pids(added))
        && (LeastUnder(w, kept, Pids(added)) <==> NoneStillListed(w, PidList(old(items)), running))
      ensures Complete(WorldOf(attachable), Pids(items), Pids(items), PidsOf(Dead(old(items), running)))
    {
      hide Valid, Pids, PassAt, PassSets, Complete, NothingElse, LeastUnder, NoneStillListed, WorldOf, Running, Dead,
        PidsOf, PidList, UniquePids, At;
      ghost var w, olds, k := WorldOf(attachable), items, 0;
      added := [];
      UniqueItems();
      PassBegins(w, olds, running);
      assert Dead(olds[..0], running) == [] by { DeadOfNone(olds, running); }
      FirstIs();
      var item := first;
      while item != null
        invariant 0 <= k <= |olds| && item == At(olds, k)
        invariant Valid() && Ready() && fresh(Repr - old(Repr)) && WorldOf(attachable) == w
        invariant destroyed == old(destroyed) + Dead(olds[..k], running)
        invariant PassAt(w, olds, running, k, added, items)
        decreases |olds| - k
      {
        AtIs(olds, k);
        DeadStep(olds, k, running);
        if item.content.pid in running {
          item, added := Keep(item, attachable, olds, running, k, added);
        } else {
          item := Prune(item, w, olds, running, k, added);
        }
        k := k + 1;
      }
      AtIs(olds, k);
      PassEnds(w, olds, running, k, added, items);
      assert olds[..k] == olds;
    }

    /** A running process: add its children. */
    method Keep(item: Item<Proc>, attachable: set<Key>, ghost olds: seq<Item<Proc>>, ghost running: set<Key>,
            ghost k: nat, ghost added: seq<Item<Proc>>)
      returns (next: Item?<Proc>, ghost added': seq<Item<Proc>>)
      requires Valid() && Ready() && 0 !in attachable && k < |olds| && item == olds[k] && item.content.pid in running
      requires PassAt(WorldOf(attachable), olds, running, k, added, items)
      modifies Repr
      ensures Valid() && Ready() && fresh(Repr - old(Repr)) && WorldOf(attachable) == old(WorldOf(attachable))
      ensures destroyed == old(destroyed) && next == At(olds, k + 1)
      ensures PassAt(WorldOf(attachable), olds, running, k + 1, added', items)
    {
      hide Valid, Pids, PassAt, LeastClosed, Grown, ChildrenListed, Running, Dead, At;
      ghost var w, before, j := WorldOf(attachable), items, |items| - (|olds| - k);
      PassItem(w, olds, running, k, added, items);
      AddProcChildren(item.content.pid, attachable);
      ghost var newcomers := items[..|items| - |before|];
      NewPidsApart(|newcomers|);
      UniqueItems();
      assert items == newcomers + before;
      PassKeep(w, olds, running, k, added, before, items, newcomers);
      added' := newcomers + added;
      AfterNewcomers(newcomers, before, j);
      NextItem(j + |newcomers|);
      next := item.next;
    }

    /** Any other process: remove and destroy it. */
    method Prune(item: Item<Proc>, ghost w: World, ghost olds: seq<Item<Proc>>, ghost running: set<Key>,
            ghost k: nat, ghost added: seq<Item<Proc>>)
      returns (next: Item?<Proc>)
      requires Valid() && Ready() && k < |olds| && item == olds[k] && item.content.pid !in running
      requires PassAt(w, olds, running, k, added, items)
      modifies Repr
      ensures Valid() && Ready() && fresh(Repr - old(Repr)) && ppidForPid.Map() == old(ppidForPid.Map())
      ensures destroyed == old(destroyed) + [item.content] && next == At(olds, k + 1)
      ensures PassAt(w, olds, running, k + 1, added, items)
    {
      hide Valid, Pids, PassAt, Removed, Running, Dead, At, Lookup.Valid, Lookup.Map;
      ghost var before, j := items, |items| - (|olds| - k);
      PassItem(w, olds, running, k, added, items);
      NextItem(j);
      next := item.next;
      Remove(item, j);
      PassDrop(w, olds, running, k, added, before, items, j);
    }

    /** Build the parent table afresh. */
    method FillTable(entries: seq<(Key, Key)>)
      requires Valid() && Ready()
      modifies ppidForPid.Repr
      ensures Valid() && Ready() && fresh(ppidForPid.Repr - old(ppidForPid.Repr))
      ensures ppidForPid.Map() == ParentsOf(entries)
      ensures forall pid: Key, ppid: Key :: LastEntry(entries, pid, ppid) ==>
        if ppid == 0 then pid !in ppidForPid.Map()
        else pid in ppidForPid.Map() && ppidForPid.Map()[pid] == ppid
      ensures forall pid :: pid in ppidForPid.Map() ==> LastEntry(entries, pid, ppidForPid.Map()[pid])
    {
      hide Valid, Lookup.Valid, Lookup.Map;
      ppidForPid.Clear();
      var i := 0;
      while i < |entries|
        invariant 0 <= i <= |entries| && Valid() && Ready() && fresh(ppidForPid.Repr - old(ppidForPid.Repr))
        invariant ppidForPid.Map() == ParentsOf(entries[..i])
      {
        var (pid, ppid) := entries[i];
        ppidForPid.Set(pid, if ppid == 0 then None else Some(ppid));
        assert entries[..i + 1][..i] == entries[..i];
        i := i + 1;
      }
      assert entries[..i] == entries;
      forall pid: Key, ppid: Key
        ensures LastEntry(entries, pid, ppid) && ppid == 0 ==> pid !in ppidForPid.Map()
        ensures pid in ppidForPid.Map() && ppidForPid.Map()[pid] == ppid <==>
                ppid != 0 && LastEntry(entries, pid, ppid)
      {
        LastEntryCounts(entries, pid, ppid);
        if pid in ParentsOf(entries) {
          LastEntryCounts(entries, pid, ParentsOf(entries)[pid]);
          OneLastEntry(entries, pid, ppid, ParentsOf(entries)[pid]);
        }
      }
    }

    /** An update: a new parent table, and the pass over the list. */
    method Update(entries: seq<(Key, Key)>, running: set<Key>, attachable: set<Key>)
      returns (ghost added: seq<Item<Proc>>)
      requires Valid() && Ready() && 0 !in attachable
      modifies Repr, ppidForPid.Repr
      ensures Valid() && Ready() && fresh(Repr - old(Repr)) && fresh(ppidForPid.Repr - old(ppidForPid.Repr))
      ensures items == added + Running(old(items), running)
      ensures destroyed == old(destroyed) + Dead(old(items), running)
      ensures var w, kept := World(ParentsOf(entries), attachable), Pids(Running(old(items), running));
        && NothingElse(w, kept, kept, Pids(added))
        && (LeastUnder(w, kept, Pids(added)) <==> NoneStillListed(w, PidList(old(items)), running))
    {
      hide Valid, Running, Dead, NothingElse, LeastUnder, NoneStillListed, PidList, Pids, Complete,
        Lookup.Valid, Lookup.Map;
      FillTable(entries);
      added := AttachAndPrune(running, attachable);
    }

    lemma {:induction false} UniqueItems()
      requires Valid()
      ensures UniquePids(items)
    {
    }

    lemma {:induction false} NextItem(j: nat)
      requires Valid() && j < |items|
      ensures items[j].next == At(items, j + 1)
    {
    }

    lemma {:induction false} NewPidsApart(n: nat)
      requires Valid() && n <= |items|
      ensures Pids(items[..n]) !! Pids(items[n..])
    {
      forall x, y | x in items[..n] && y in items[n..] ensures x.content.pid != y.content.pid {
        var i :| 0 <= i < n && items[..n][i] == x;
        var j :| 0 <= j < |items| - n && items[n..][j] == y;
        assert items[i] == x && items[n + j] == y;
      }
    }

    /** One bucket of the iteration over the parent table. */
    method ScanChain(head: Chain?<Pid>, ghost b: nat, ppid: Key, attachable: set<Key>, ghost before: set<Key>)
      requires Valid() && Ready() && 0 !in attachable
      requires b < ppidForPid.hash.capacity && head == ppidForPid.hash.chains[b]
      requires Grown(WorldOf(attachable), before, Pids(items), ppid)
      modifies Repr
      ensures Valid() && Ready() && Prepended() && old(Pids(items)) <= Pids(items)
      ensures Grown(WorldOf(attachable), before, Pids(items), ppid)
      ensures Scanned(ppidForPid.hash.model.buckets[b], Pids(items), attachable, ppid)
      decreases Missing(), 2
    {
      hide Valid, Pids, Grown, Scanned, Lookup.Valid, Lookup.Map, HashTable.Valid,
        HashModel.WellFormed, HashModel.KeySet, HashModel.ToMap, HashModel.Observed;
      TableFacts();
      ghost var ns, es := ppidForPid.hash.nodes[b], ppidForPid.hash.model.buckets[b];
      ppidForPid.hash.ChainOf(b);
      ScannedNone(Pids(items), attachable, ppid);
      var chain := head;
      if chain == null {
        return;
      }
      ghost var j := 0;
      while chain.next != null
        invariant 0 <= j <= |es| && |ns| == |es| + 1 && chain == ns[j] && Linked(ns[j..], es[j..])
        invariant Valid() && Ready() && Prepended() && old(Pids(items)) <= Pids(items)
        invariant Grown(WorldOf(attachable), before, Pids(items), ppid)
        invariant Scanned(es[..j], Pids(items), attachable, ppid)
        decreases |es| - j
      {
        chain := chain.next;
        assert ns[j..][1..] == ns[j + 1..] && es[j..][1..] == es[j + 1..];
        HashModel.EntryObserved(ppidForPid.hash.model, b, j);
        ghost var listed := Pids(items);
        if chain.value != None {
          Visit(chain.key, chain.value.value, ppid, attachable, before);
        }
        ScannedOne(es[j], Pids(items), attachable, ppid);
        ScannedMore(es[..j], [es[j]], listed, Pids(items), attachable, ppid);
        assert es[..j + 1] == es[..j] + [es[j]];
        j := j + 1;
      }
      assert es[..j] == es;
    }

    /** One entry of the parent table. */
    method Visit(pid: Key, pidPpid: Pid, ppid: Key, attachable: set<Key>, ghost before: set<Key>)
      requires Valid() && Ready() && 0 !in attachable && pid in ppidForPid.Map() && ppidForPid.Map()[pid] == pidPpid
      requires Grown(WorldOf(attachable), before, Pids(items), ppid)
      modifies Repr
      ensures Valid() && Ready() && Prepended() && old(Pids(items)) <= Pids(items)
      ensures Grown(WorldOf(attachable), before, Pids(items), ppid)
      ensures pidPpid == ppid && pid in attachable ==> pid in Pids(items)
      decreases Missing(), 1
    {
      hide Valid, Pids, Grown, ChildrenListed, LeastClosed, Lookup.Valid, Lookup.Map, HashModel.KeySet;
      var listed := HasPid(pid);
      if pidPpid == ppid && !listed {
        if pid !in attachable {
          return;
        }
        Adopt(pid, ppid, attachable, before);
      }
    }

    /** Add a child and then its own children. */
    method Adopt(pid: Key, ppid: Key, attachable: set<Key>, ghost before: set<Key>)
      requires Valid() && Ready() && 0 !in attachable && pid in attachable && pid !in Pids(items)
      requires pid in ppidForPid.Map() && ppidForPid.Map()[pid] == ppid
      requires Grown(WorldOf(attachable), before, Pids(items), ppid)
      modifies Repr
      ensures Valid() && Ready() && Prepended() && old(Pids(items)) + {pid} <= Pids(items)
      ensures Grown(WorldOf(attachable), before, Pids(items), ppid)
      decreases Missing(), 0
    {
      hide Valid, Pids, Grown, ChildrenListed, LeastClosed, Closed, Lookup.Valid, Lookup.Map, HashModel.KeySet;
      ghost var w, olds := WorldOf(attachable), items;
      var proc := new Proc(pid);
      Add(proc);
      ghost var mid := items;
      AddProcChildren(pid, attachable);
      SuffixOfSuffix(items, mid, olds);
      GrownByChild(w, before, Pids(olds), Pids(items), ppid, pid);
      GrownIncludes(w, Pids(olds) + {pid}, Pids(items), pid);
    }
  }

  lemma {:induction false} SuffixOfSuffix<T>(xs: seq<T>, ys: seq<T>, zs: seq<T>)
    requires |xs| >= |ys| && xs[|xs| - |ys|..] == ys && |ys| == |zs| + 1 && ys[1..] == zs
    ensures xs[|xs| - |zs|..] == zs
  {
    assert xs == xs[..|xs| - |ys|] + ys && ys == [ys[0]] + zs;
  }

  // ---- The update pass --------------------------------------------------------------------------------

  ghost function Running(items: seq<Item<Proc>>, running: set<Key>): seq<Item<Proc>> {
    if items == [] then []
    else if items[0].content.pid in running then [items[0]] + Running(items[1..], running)
    else Running(items[1..], running)
  }

  ghost function Dead(items: seq<Item<Proc>>, running: set<Key>): seq<Proc> {
    if items == [] then []
    else if items[0].content.pid in running then Dead(items[1..], running)
    else [items[0].content] + Dead(items[1..], running)
  }

  ghost function PidsOf(procs: seq<Proc>): set<Key> {
    set proc | proc in procs :: proc.pid
  }

  /** The state of the pass after `k` of the items that were on the list when it began. */
  ghost predicate PassAt(w: World, olds: seq<Item<Proc>>, running: set<Key>, k: nat,
                         added: seq<Item<Proc>>, items: seq<Item<Proc>>)
  {
    && k <= |olds|
    && items == added + Running(olds[..k], running) + olds[k..]
    && UniquePids(olds) && UniquePids(items)
    && PassSets(w, PidList(olds), running, k, Pids(added))
    && Complete(w, Pids(added) + Pids(Running(olds[..k], running)), Pids(items), PidsOf(Dead(olds[..k], running)))
  }

  lemma {:induction false} PidsAppend(xs: seq<Item<Proc>>, ys: seq<Item<Proc>>)
    ensures Pids(xs + ys) == Pids(xs) + Pids(ys)
  {
  }

  lemma {:induction false} PidIn(xs: seq<Item<Proc>>, x: Item<Proc>)
    requires x in xs
    ensures x.content.pid in Pids(xs)
  {
  }

  lemma {:induction false} PidsOne(x: Item<Proc>)
    ensures Pids([x]) == {x.content.pid}
  {
  }

  lemma {:induction false} DeadOfNone(olds: seq<Item<Proc>>, running: set<Key>)
    ensures olds[..0] == [] && Dead(olds[..0], running) == [] && Running(olds[..0], running) == []
  {
  }

  ghost function PidList(items: seq<Item<Proc>>): (pids: seq<Key>)
    ensures |pids| == |items|
  {
    seq(|items|, i requires 0 <= i < |items| => items[i].content.pid)
  }

  lemma {:induction false} UniqueIsDistinct(items: seq<Item<Proc>>)
    requires UniquePids(items)
    ensures Distinct(PidList(items))
  {
  }

  lemma {:induction false} PidsFrom(olds: seq<Item<Proc>>, k: nat)
    requires k <= |olds|
    ensures Pids(olds[k..]) == set i | k <= i < |olds| :: PidList(olds)[i]
  {
    forall x | x in olds[k..] ensures x.content.pid in set i | k <= i < |olds| :: PidList(olds)[i] {
      var i :| 0 <= i < |olds| - k && olds[k..][i] == x;
      assert PidList(olds)[k + i] == x.content.pid;
    }
    forall i | k <= i < |olds| ensures PidList(olds)[i] in Pids(olds[k..]) {
      assert olds[k..][i - k] == olds[i];
    }
  }

  lemma {:induction false} PidsKept(olds: seq<Item<Proc>>, running: set<Key>, k: nat)
    requires k <= |olds|
    ensures Pids(Running(olds[..k], running)) == KeptOf(PidList(olds), running, k)
    decreases k
  {
    if k == 0 {
      DeadOfNone(olds, running);
    } else {
      PidsKept(olds, running, k - 1);
      DeadStep(olds, k - 1, running);
      KeptOneMore(PidList(olds), running, k - 1);
      PidsAppend(Running(olds[..k - 1], running), [olds[k - 1]]);
      PidsOne(olds[k - 1]);
    }
  }

  lemma {:induction false} ListedApart(added: seq<Item<Proc>>, past: seq<Item<Proc>>, rest: seq<Item<Proc>>)
    requires UniquePids(added + past + rest) && rest != []
    ensures rest[0].content.pid !in Pids(added)
  {
    var all, j := added + past + rest, |added| + |past|;
    assert all[j] == rest[0];
    forall x | x in added ensures x.content.pid != rest[0].content.pid {
      var i :| 0 <= i < |added| && added[i] == x;
      assert all[i] == x;
    }
  }

  lemma {:induction false} PassBegins(w: World, olds: seq<Item<Proc>>, running: set<Key>)
    requires UniquePids(olds)
    ensures PassAt(w, olds, running, 0, [], olds)
  {
    DeadOfNone(olds, running);
    assert Pids([]) == {};
    assert olds == [] + [] + olds[0..];
    PassSetsBegin(w, PidList(olds), running);
  }

  lemma {:induction false} AfterNewcomers(newcomers: seq<Item<Proc>>, before: seq<Item<Proc>>, j: nat)
    requires j < |before|
    ensures (newcomers + before)[|newcomers| + j] == before[j]
    ensures At(newcomers + before, |newcomers| + j + 1) == At(before, j + 1)
  {
  }

  lemma {:induction false} PassItem(w: World, olds: seq<Item<Proc>>, running: set<Key>, k: nat,
          added: seq<Item<Proc>>, items: seq<Item<Proc>>)
    requires PassAt(w, olds, running, k, added, items) && k < |olds|
    ensures var j := |items| - (|olds| - k);
      0 <= j < |items| && items[j] == olds[k] && At(items, j + 1) == At(olds, k + 1)
  {
  }

  lemma {:induction false} DeadStep(olds: seq<Item<Proc>>, k: nat, running: set<Key>)
    requires k < |olds|
    ensures var one := if olds[k].content.pid in running then [] else [olds[k].content];
      Dead(olds[..k + 1], running) == Dead(olds[..k], running) + one
    ensures var one := if olds[k].content.pid in running then [olds[k]] else [];
      Running(olds[..k + 1], running) == Running(olds[..k], running) + one
  {
    assert olds[..k + 1] == olds[..k] + [olds[k]];
    RunningAppend(olds[..k], olds[k], running);
  }

  /** The pids listed after `k` items, by where they come from. */
  lemma {:induction false} ListedPids(w: World, olds: seq<Item<Proc>>, running: set<Key>, k: nat,
          added: seq<Item<Proc>>, items: seq<Item<Proc>>)
    requires PassAt(w, olds, running, k, added, items)
    ensures Pids(items) == Pids(added) + KeptOf(PidList(olds), running, k) + Pids(olds[k..])
    ensures k < |olds| ==> olds[k].content.pid !in Pids(added)
  {
    hide Pids, Complete, PassSets, Dead, UniquePids, PidList;
    var past := Running(olds[..k], running);
    PidsKept(olds, running, k);
    PidsAppend(added + past, olds[k..]);
    PidsAppend(added, past);
    if k < |olds| {
      assert olds[k..] != [] && olds[k..][0] == olds[k];
      ListedApart(added, past, olds[k..]);
    }
  }

  lemma {:induction false} PassKeep(w: World, olds: seq<Item<Proc>>, running: set<Key>, k: nat, added: seq<Item<Proc>>,
          items: seq<Item<Proc>>, items': seq<Item<Proc>>, newcomers: seq<Item<Proc>>)
    requires PassAt(w, olds, running, k, added, items) && k < |olds| && olds[k].content.pid in running
    requires items' == newcomers + items && Pids(newcomers) !! Pids(items) && UniquePids(items')
    requires Grown(w, Pids(items), Pids(items'), olds[k].content.pid)
    requires ChildrenListed(w, Pids(items'), olds[k].content.pid)
    ensures PassAt(w, olds, running, k + 1, newcomers + added, items')
  {
    hide Complete, PassSets, Grown, ChildrenListed, Pids, PidsOf, Running, Dead, UniquePids, Distinct, KeptOf;
    var pid, past, pids := olds[k].content.pid, Running(olds[..k], running), PidList(olds);
    DeadStep(olds, k, running);
    PidsAppend(newcomers, items);
    PidsAppend(newcomers, added);
    PidsAppend(past, [olds[k]]);
    PidsOne(olds[k]);
    PidsFrom(olds, k);
    PidsKept(olds, running, k);
    UniqueIsDistinct(olds);
    ListedPids(w, olds, running, k, added, items);
    assert Pids(items') == Pids(items) + Pids(newcomers) && Pids(items') - Pids(items) == Pids(newcomers);
    PassSetsKeep(w, pids, running, k, Pids(added), Pids(items), Pids(newcomers));
    CompleteMore(w, Pids(added) + Pids(past), Pids(items), Pids(items'), PidsOf(Dead(olds[..k], running)), pid);
    assert olds[k..] == [olds[k]] + olds[k + 1..];
    assert items' == (newcomers + added) + (past + [olds[k]]) + olds[k + 1..];
    assert Dead(olds[..k + 1], running) == Dead(olds[..k], running);
    assert Pids(newcomers + added) == Pids(added) + Pids(newcomers);
    assert Pids(newcomers + added) + Pids(past + [olds[k]])
        == Pids(added) + Pids(past) + {pid} + (Pids(items') - Pids(items));
  }

  lemma {:induction false} PassDrop(w: World, olds: seq<Item<Proc>>, running: set<Key>, k: nat, added: seq<Item<Proc>>,
          items: seq<Item<Proc>>, items': seq<Item<Proc>>, j: nat)
    requires PassAt(w, olds, running, k, added, items) && k < |olds| && olds[k].content.pid !in running
    requires j == |items| - (|olds| - k) && j < |items| && items' == Removed(items, j)
    requires Pids(items') == Pids(items) - {olds[k].content.pid}
    ensures PassAt(w, olds, running, k + 1, added, items')
  {
    hide PassSets, UniquePids, Pids, PidsOf, Complete, Removed, Running, Dead;
    var gone, dead, past := olds[k].content, Dead(olds[..k], running), Running(olds[..k], running);
    DeadStep(olds, k, running);
    ListedPids(w, olds, running, k, added, items);
    PassSetsDrop(w, PidList(olds), running, k, Pids(added));
    UniqueRemoved(items, j);
    PidsOfOneMore(dead, gone);
    CompleteDrop(w, Pids(added) + Pids(past), Pids(items), PidsOf(dead), gone.pid);
    WithoutNext(added + past, olds, k);
    assert past + [] == past;
  }

  lemma {:induction false} WithoutNext(past: seq<Item<Proc>>, olds: seq<Item<Proc>>, k: nat)
    requires k < |olds|
    ensures |past + olds[k..]| - (|olds| - k) == |past|
    ensures Removed(past + olds[k..], |past|) == past + olds[k + 1..]
  {
  }

  lemma {:induction false} PidsOfOneMore(procs: seq<Proc>, proc: Proc)
    ensures PidsOf(procs + [proc]) == PidsOf(procs) + {proc.pid}
  {
  }

  lemma {:induction false} PassEnds(w: World, olds: seq<Item<Proc>>, running: set<Key>, k: nat,
          added: seq<Item<Proc>>, items: seq<Item<Proc>>)
    requires PassAt(w, olds, running, k, added, items) && k == |olds|
    ensures items == added + Running(olds, running)
    ensures var kept := Pids(Running(olds, running));
      && NothingElse(w, kept, kept, Pids(added))
      && (LeastUnder(w, kept, Pids(added)) <==> NoneStillListed(w, PidList(olds), running))
    ensures Complete(w, Pids(items), Pids(items), PidsOf(Dead(olds, running)))
  {
    hide PassSets, NothingElse, LeastUnder, NoneStillListed, UniquePids;
    assert olds[..k] == olds && olds[k..] == [];
    PidsAppend(added, Running(olds, running));
    PidsKept(olds, running, k);
    PassSetsEnd(w, PidList(olds), running, Pids(added));
  }

  lemma {:induction false} RunningAppend(items: seq<Item<Proc>>, item: Item<Proc>, running: set<Key>)
    ensures var one := if item.content.pid in running then [item] else [];
      Running(items + [item], running) == Running(items, running) + one
    ensures var one := if item.content.pid in running then [] else [item.content];
      Dead(items + [item], running) == Dead(items, running) + one
  {
    if items == [] {
      assert [] + [item] == [item];
    } else {
      assert (items + [item])[1..] == items[1..] + [item];
      RunningAppend(items[1..], item, running);
    }
  }

  lemma {:induction false} RunningMember(items: seq<Item<Proc>>, running: set<Key>, item: Item<Proc>)
    ensures item in Running(items, running) <==> item in items && item.content.pid in running
  {
    if items != [] {
      RunningMember(items[1..], running, item);
    }
  }

  /** The entries that name the process as the parent have been dealt with. */
  ghost predicate Scanned(es: seq<HashModel.Entry<Pid>>, listed: set<Key>, attachable: set<Key>, ppid: Key) {
    forall e :: e in es && e.value == Some(ppid) && e.key in attachable ==> e.key in listed
  }

  lemma {:induction false} ScannedNone(listed: set<Key>, attachable: set<Key>, ppid: Key)
    ensures Scanned([], listed, attachable, ppid)
  {
  }

  lemma {:induction false} ScannedOne(e: HashModel.Entry<Pid>, listed: set<Key>, attachable: set<Key>, ppid: Key)
    requires e.value == Some(ppid) && e.key in attachable ==> e.key in listed
    ensures Scanned([e], listed, attachable, ppid)
  {
  }

  lemma {:induction false} ScannedMore(es: seq<HashModel.Entry<Pid>>, fs: seq<HashModel.Entry<Pid>>,
          listed: set<Key>, listed': set<Key>, attachable: set<Key>, ppid: Key)
    requires Scanned(es, listed, attachable, ppid) && Scanned(fs, listed', attachable, ppid) && listed <= listed'
    ensures Scanned(es + fs, listed', attachable, ppid)
  {
  }

  lemma {:induction false} ScannedAll(t: HashModel.Table<Pid>, listed: set<Key>, attachable: set<Key>, ppid: Key)
    requires HashModel.WellFormed(t) && Scanned(HashModel.Items(t.buckets), listed, attachable, ppid)
    ensures ChildrenListed(World(HashModel.Observed(t), attachable), listed, ppid)
  {
    HashModel.ItemsAreTheMap(t);
    forall c | c in HashModel.Observed(t) && HashModel.Observed(t)[c] == ppid && c in attachable ensures c in listed {
      assert HashModel.Entry(c, Some(ppid)) in HashModel.Items(t.buckets);
    }
  }

  lemma {:induction false} GrownAtFirst(w: World, listed: set<Key>, root: Key)
    ensures Grown(w, listed, listed, root)
  {
  }

  // ---- Runs of updates ------------------------------------------------------------------------------

  /** What one update finds. */
  datatype Snapshot = Snapshot(entries: seq<(Key, Key)>, running: set<Key>, attachable: set<Key>)

  ghost function Contents(items: seq<Item<Proc>>): (procs: seq<Proc>)
    ensures |procs| == |items|
  {
    seq(|items|, i requires 0 <= i < |items| => items[i].content)
  }

  lemma {:induction false} ContentsAppend(xs: seq<Item<Proc>>, ys: seq<Item<Proc>>)
    ensures Contents(xs + ys) == Contents(xs) + Contents(ys)
  {
  }

  /** What is listed is kept or destroyed. */
  lemma {:induction false} RunningOrDead(items: seq<Item<Proc>>, running: set<Key>)
    ensures multiset(Contents(items)) == multiset(Contents(Running(items, running))) + multiset(Dead(items, running))
  {
    if items != [] {
      var one, rest := [items[0]], items[1..];
      assert items == one + rest && Contents(one) == [items[0].content];
      ContentsAppend(one, rest);
      ContentsAppend(one, Running(rest, running));
      RunningOrDead(rest, running);
    }
  }

  lemma {:induction false} UpdateConserves(olds: seq<Item<Proc>>, running: set<Key>, added: seq<Item<Proc>>,
          destroyed: seq<Proc>)
    ensures multiset(Contents(added + Running(olds, running))) + multiset(destroyed + Dead(olds, running)) ==
            multiset(Contents(olds)) + multiset(destroyed) + multiset(Contents(added))
  {
    hide Running, Dead, Contents;
    RunningOrDead(olds, running);
    ContentsAppend(added, Running(olds, running));
  }

  /** Any number of updates: every process that was ever listed is still listed or was destroyed, once. */
  method Watch(list: ProcList, snapshots: seq<Snapshot>) returns (ghost joined: seq<Proc>)
    requires list.Valid() && list.Ready() && forall s :: s in snapshots ==> 0 !in s.attachable
    modifies list.Repr, list.ppidForPid.Repr
    ensures list.Valid() && list.Ready()
    ensures fresh(list.Repr - old(list.Repr)) && fresh(list.ppidForPid.Repr - old(list.ppidForPid.Repr))
    ensures multiset(Contents(list.items)) + multiset(list.destroyed) ==
            multiset(Contents(old(list.items))) + multiset(old(list.destroyed)) + multiset(joined)
  {
    hide ProcList.Valid, Running, Dead, Contents, NothingElse, LeastUnder, NoneStillListed, PidList, Pids,
      Lookup.Valid, Lookup.Map;
    joined := [];
    for i := 0 to |snapshots|
      invariant list.Valid() && list.Ready()
      invariant fresh(list.Repr - old(list.Repr)) && fresh(list.ppidForPid.Repr - old(list.ppidForPid.Repr))
      invariant multiset(Contents(list.items)) + multiset(list.destroyed) ==
                multiset(Contents(old(list.items))) + multiset(old(list.destroyed)) + multiset(joined)
    {
      var Snapshot(entries, running, attachable) := snapshots[i];
      ghost var olds, destroyed := list.items, list.destroyed;
      ghost var added := list.Update(entries, running, attachable);
      UpdateConserves(olds, running, added, destroyed);
      joined := joined + Contents(added);
    }
  }

  /** A running process whose child is listed, dead, and behind it: the update loses the child. */
  method LosesChild(parent: Pid, child: Pid) returns (found: bool)
    requires parent != child
    ensures !found
  {
    hide ProcList.Valid, Running, Dead, NothingElse, LeastUnder, NoneStillListed, Lookup.Valid, Lookup.Map;
    var dead := new Proc(child);
    var alive := new Proc(parent);
    var list := new ProcList(dead);
    list.UniqueItems();
    ListOfOne(list.items, child);
    list.Add(alive);
    ghost var olds := list.items;
    assert PidList(olds) == [parent, child];
    ghost var added := list.Update([(child, parent)], {parent}, {child});
    assert ParentsOf([(child, parent)]) == map[child := parent] by {
      assert [(child, parent)][..0] == [];
    }
    found := list.HasPid(child);
    LostChild(olds, parent, child, Pids(added));
    PidsAppend(added, Running(olds, {parent}));
  }

  /** A running process gains its child if that can be attached to, and its grandchild if both can. */
  method GainsChildren(parent: Pid, child: Pid, grandchild: Pid, attachable: set<Key>)
    returns (one: bool, two: bool)
    requires parent != child && parent != grandchild && child != grandchild && 0 !in attachable
    ensures one <==> child in attachable
    ensures two <==> child in attachable && grandchild in attachable
  {
    hide ProcList.Valid, Running, Dead, NothingElse, LeastUnder, NoneStillListed, Lookup.Valid, Lookup.Map, ParentsOf;
    var alive := new Proc(parent);
    var list := new ProcList(alive);
    list.UniqueItems();
    ListOfOne(list.items, parent);
    ghost var olds := list.items;
    ghost var added := list.Update([(grandchild, child), (child, parent)], {parent}, attachable);
    one := list.HasPid(child);
    two := list.HasPid(grandchild);
    GainedChildren(olds, parent, child, grandchild, attachable, Pids(added));
    PidsAppend(added, Running(olds, {parent}));
  }

  lemma {:induction false} GainedChildren(olds: seq<Item<Proc>>, parent: Pid, child: Pid, grandchild: Pid,
          attachable: set<Key>, added: set<Key>)
    requires parent != child && parent != grandchild && child != grandchild && PidList(olds) == [parent]
    requires var w := World(ParentsOf([(grandchild, child), (child, parent)]), attachable);
      var kept := Pids(Running(olds, {parent}));
      && NothingElse(w, kept, kept, added)
      && (LeastUnder(w, kept, added) <==> NoneStillListed(w, PidList(olds), {parent}))
    ensures Pids(Running(olds, {parent})) == {parent}
    ensures child in added <==> child in attachable
    ensures grandchild in added <==> child in attachable && grandchild in attachable
  {
    var w, kept := World(ParentsOf([(grandchild, child), (child, parent)]), attachable), Pids(Running(olds, {parent}));
    assert olds[..1] == olds;
    PidsKept(olds, {parent}, 1);
    assert PidList(olds)[0] == parent && kept == {parent};
    Family(parent, child, grandchild);
    hide ParentsOf;
    assert ChildOf(w, child, parent) <==> child in attachable;
    assert ChildOf(w, grandchild, child) <==> grandchild in attachable;
    var all := set c | c in {child, grandchild} && c in attachable && child in attachable;
    assert ClosedUnder(w, kept, kept, all);
  }

  lemma {:induction false} Family(parent: Pid, child: Pid, grandchild: Pid)
    requires child != grandchild
    ensures ParentsOf([(grandchild, child), (child, parent)]) == map[grandchild := child, child := parent]
  {
    var es: seq<(Key, Key)> := [(grandchild, child), (child, parent)];
    assert es[..1] == [(grandchild, child)];
    assert es[..1][..0] == es[..0];
    assert ParentsOf(es[..1]) == map[grandchild := child];
  }

  lemma {:induction false} ListOfOne(items: seq<Item<Proc>>, pid: Key)
    requires UniquePids(items) && Pids(items) == {pid}
    ensures PidList(items) == [pid]
  {
    hide UniquePids;
    forall i | 0 <= i < |items| ensures items[i].content.pid == pid {
      PidIn(items, items[i]);
    }
    if |items| > 1 {
      FirstTwoDiffer(items);
    }
    assert items != [];
  }

  lemma {:induction false} FirstTwoDiffer(items: seq<Item<Proc>>)
    requires UniquePids(items) && |items| > 1
    ensures items[0].content.pid != items[1].content.pid
  {
  }

  lemma {:induction false} LostChild(olds: seq<Item<Proc>>, parent: Pid, child: Pid, added: set<Key>)
    requires parent != child && PidList(olds) == [parent, child]
    requires var w, kept := World(map[child := parent], {child}), Pids(Running(olds, {parent}));
      && NothingElse(w, kept, kept, added)
      && (LeastUnder(w, kept, added) <==> NoneStillListed(w, PidList(olds), {parent}))
    ensures child !in added + Pids(Running(olds, {parent}))
  {
    var w, kept := World(map[child := parent], {child}), Pids(Running(olds, {parent}));
    var pids := [parent, child];
    assert olds[..2] == olds;
    PidsKept(olds, {parent}, 2);
    assert pids[0] == parent && pids[1] == child;
    assert kept == {parent};
    OrderDecides(parent, child, {parent});
    assert ClosedUnder(w, kept, kept, {child});
    assert added <= {child};
    assert StillListed(w, PidList(olds), {parent}, 1);
    assert !LeastUnder(w, kept, added);
    assert added != {child};
  }
}
