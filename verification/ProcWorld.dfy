/** Which processes a parent table leads to: the sets that discovery and updates of src/py_proc_list.c are about. */
module ProcWorlds {
  import opened Common

  /** A parent that the table can hold: 0 is NULL, and the iteration over the table skips it. */
  type Pid = p: Key | p != 0 witness 1

  /** A parent table and the processes that can be attached to. */
  datatype World = World(parents: map<Key, Pid>, attachable: set<Key>)

  /** What a list of pids and parents says; an entry whose parent is 0 takes the pid out. */
  function ParentsOf(entries: seq<(Key, Key)>): map<Key, Pid> {
    if entries == [] then map[]
    else
      var (pid, ppid) := entries[|entries| - 1];
      var before := ParentsOf(entries[..|entries| - 1]);
      if ppid == 0 then before - {pid} else before[pid := ppid]
  }

  /** The last entry for the pid. */
  ghost predicate LastEntry(entries: seq<(Key, Key)>, pid: Key, ppid: Key) {
    exists i :: 0 <= i < |entries| && entries[i] == (pid, ppid) && forall j :: i < j < |entries| ==> entries[j].0 != pid
  }

  /** A pid has the parent that the last entry for it names, and none if that is 0 or there is no entry. */
  lemma {:induction false} LastEntryCounts(entries: seq<(Key, Key)>, pid: Key, ppid: Key)
    ensures pid in ParentsOf(entries) && ParentsOf(entries)[pid] == ppid <==> ppid != 0 && LastEntry(entries, pid, ppid)
  {
    if entries != [] {
      var n := |entries| - 1;
      LastEntryCounts(entries[..n], pid, ppid);
      if entries[n].0 == pid {
        assert LastEntry(entries, pid, ppid) <==> entries[n] == (pid, ppid);
      } else {
        LastEntryBefore(entries, pid, ppid);
      }
    }
  }

  lemma {:induction false} OneLastEntry(entries: seq<(Key, Key)>, pid: Key, p: Key, q: Key)
    ensures LastEntry(entries, pid, p) && LastEntry(entries, pid, q) ==> p == q
  {
  }

  lemma {:induction false} LastEntryBefore(entries: seq<(Key, Key)>, pid: Key, ppid: Key)
    requires entries != [] && entries[|entries| - 1].0 != pid
    ensures LastEntry(entries, pid, ppid) <==> LastEntry(entries[..|entries| - 1], pid, ppid)
  {
    var n := |entries| - 1;
    if i :| 0 <= i < n && entries[..n][i] == (pid, ppid) && forall j :: i < j < n ==> entries[..n][j].0 != pid {
      assert forall j :: i < j < |entries| ==> entries[j].0 == (if j < n then entries[..n][j].0 else entries[n].0);
    }
    if i :| 0 <= i <= n && entries[i] == (pid, ppid) && forall j :: i < j <= n ==> entries[j].0 != pid {
      assert entries[..n][i] == (pid, ppid);
    }
  }

  ghost predicate ChildOf(w: World, c: Key, p: Key) {
    c in w.parents && w.parents[c] == p && c in w.attachable
  }

  /** `t` has every attachable child of the root and of its own members that is not listed. */
  ghost predicate Closed(w: World, listed: set<Key>, root: Key, t: set<Key>) {
    forall c, p :: ChildOf(w, c, p) && (p == root || p in t) && c !in listed ==> c in t
  }

  ghost predicate LeastClosed(w: World, listed: set<Key>, root: Key, t: set<Key>) {
    Closed(w, listed, root, t) && forall u :: Closed(w, listed, root, u) ==> t <= u
  }

  /** Growing the list from `before` to `after` on behalf of the root, possibly not finished yet. */
  ghost predicate Grown(w: World, before: set<Key>, after: set<Key>, root: Key) {
    && before <= after
    && (forall u :: Closed(w, before, root, u) ==> after - before <= u)
    && forall c, p :: ChildOf(w, c, p) && p in after - before ==> c in after
  }

  ghost predicate ChildrenListed(w: World, listed: set<Key>, root: Key) {
    forall c :: ChildOf(w, c, root) ==> c in listed
  }

  lemma {:induction false} GrownByChild(w: World, before: set<Key>, middle: set<Key>, after: set<Key>, root: Key,
          c: Key)
    requires Grown(w, before, middle, root)
    requires ChildOf(w, c, root) && c !in middle
    requires Grown(w, middle + {c}, after, c) && ChildrenListed(w, after, c)
    ensures Grown(w, before, after, root)
  {
    forall u | Closed(w, before, root, u) ensures after - before <= u {
      assert c in u;
      assert Closed(w, middle + {c}, c, u);
    }
  }

  lemma {:induction false} GrownIncludes(w: World, before: set<Key>, after: set<Key>, root: Key)
    requires Grown(w, before, after, root)
    ensures before <= after
  {
  }

  lemma {:induction false} GrownIsLeast(w: World, before: set<Key>, after: set<Key>, root: Key)
    requires Grown(w, before, after, root) && ChildrenListed(w, after, root)
    ensures LeastClosed(w, before, root, after - before)
  {
  }

  // ---- Updates ----------------------------------------------------------------------------------------

  /** `t` has every attachable child of `from` and of its own members that is not kept. */
  ghost predicate ClosedUnder(w: World, kept: set<Key>, from: set<Key>, t: set<Key>) {
    forall c, p :: ChildOf(w, c, p) && (p in from || p in t) && c !in kept ==> c in t
  }

  /** Every set that is closed under `from` includes `t`. */
  ghost predicate NothingElse(w: World, kept: set<Key>, from: set<Key>, t: set<Key>) {
    forall u :: ClosedUnder(w, kept, from, u) ==> t <= u
  }

  ghost predicate LeastUnder(w: World, kept: set<Key>, t: set<Key>) {
    ClosedUnder(w, kept, kept, t) && NothingElse(w, kept, kept, t)
  }

  /** The kept ones of the first `n` pids. */
  ghost function KeptOf(pids: seq<Key>, running: set<Key>, n: nat): set<Key>
    requires n <= |pids|
  {
    set i | 0 <= i < n && pids[i] in running :: pids[i]
  }

  ghost predicate Leads(w: World, kept: set<Key>, from: set<Key>, p: Key) {
    p in from || NothingElse(w, kept, from, {p})
  }

  /**
   The j-th process listed is not running and its pid is an attachable child of a process that the
   running ones before it lead to: when that one is asked for its children, the pid is still listed.
   */
  ghost predicate StillListed(w: World, pids: seq<Key>, running: set<Key>, j: nat)
    requires j < |pids|
  {
    && pids[j] !in running && pids[j] in w.attachable && pids[j] in w.parents
    && Leads(w, KeptOf(pids, running, |pids|), KeptOf(pids, running, j), w.parents[pids[j]])
  }

  ghost predicate NoneStillListed(w: World, pids: seq<Key>, running: set<Key>) {
    forall j :: 0 <= j < |pids| ==> !StillListed(w, pids, running, j)
  }

  /** What the pass has added after `k` of the pids that were listed when it began. */
  ghost predicate PassSets(w: World, pids: seq<Key>, running: set<Key>, k: nat, added: set<Key>)
    requires k <= |pids|
  {
    var kept, from := KeptOf(pids, running, |pids|), KeptOf(pids, running, k);
    && NothingElse(w, kept, from, added)
    && (forall j :: 0 <= j < k && StillListed(w, pids, running, j) ==> !ClosedUnder(w, kept, from, added))
    && (!ClosedUnder(w, kept, from, added) ==> !NoneStillListed(w, pids, running))
  }

  /** Every attachable child of the given parents is listed, or was found dead. */
  ghost predicate Complete(w: World, parents: set<Key>, listed: set<Key>, dead: set<Key>) {
    forall c, p :: ChildOf(w, c, p) && p in parents ==> c in listed || c in dead
  }

  lemma {:induction false} CompleteMore(w: World, parents: set<Key>, before: set<Key>, after: set<Key>,
          dead: set<Key>, p: Key)
    requires Complete(w, parents, before, dead) && Grown(w, before, after, p) && ChildrenListed(w, after, p)
    ensures Complete(w, parents + {p} + (after - before), after, dead)
  {
  }

  lemma {:induction false} CompleteDrop(w: World, parents: set<Key>, listed: set<Key>, dead: set<Key>, pid: Key)
    requires Complete(w, parents, listed, dead)
    ensures Complete(w, parents, listed - {pid}, dead + {pid})
  {
  }

  lemma {:induction false} PassSetsBegin(w: World, pids: seq<Key>, running: set<Key>)
    ensures PassSets(w, pids, running, 0, {})
  {
  }

  lemma {:induction false} PassSetsEnd(w: World, pids: seq<Key>, running: set<Key>, added: set<Key>)
    requires PassSets(w, pids, running, |pids|, added)
    ensures var kept := KeptOf(pids, running, |pids|);
      NothingElse(w, kept, kept, added) && (LeastUnder(w, kept, added) <==> NoneStillListed(w, pids, running))
  {
  }

  lemma {:induction false} KeptOneMore(pids: seq<Key>, running: set<Key>, k: nat)
    requires k < |pids|
    ensures KeptOf(pids, running, k + 1) ==
            KeptOf(pids, running, k) + if pids[k] in running then {pids[k]} else {}
  {
  }

  lemma {:induction false} KeptGrows(pids: seq<Key>, running: set<Key>, m: nat, n: nat)
    requires m <= n <= |pids|
    ensures KeptOf(pids, running, m) <= KeptOf(pids, running, n)
  {
  }

  lemma {:induction false} NothingElseOfMore(w: World, kept: set<Key>, from: set<Key>, more: set<Key>, t: set<Key>)
    requires NothingElse(w, kept, from, t) && from <= more
    ensures NothingElse(w, kept, more, t)
  {
    forall u | ClosedUnder(w, kept, more, u) ensures t <= u {
      assert ClosedUnder(w, kept, from, u);
    }
  }

  /** A process that is not running changes nothing but the list. */
  lemma {:induction false} PassSetsDrop(w: World, pids: seq<Key>, running: set<Key>, k: nat, added: set<Key>)
    requires k < |pids| && PassSets(w, pids, running, k, added) && pids[k] !in running && pids[k] !in added
    ensures PassSets(w, pids, running, k + 1, added)
  {
    var kept, from := KeptOf(pids, running, |pids|), KeptOf(pids, running, k);
    KeptOneMore(pids, running, k);
    if StillListed(w, pids, running, k) {
      assert ChildOf(w, pids[k], w.parents[pids[k]]) && pids[k] !in kept;
    }
  }

  /** The children of a running process are added, and theirs. */
  lemma {:induction false} PassSetsKeep(w: World, pids: seq<Key>, running: set<Key>, k: nat, added: set<Key>,
          before: set<Key>, newcomers: set<Key>)
    requires k < |pids| && Distinct(pids) && PassSets(w, pids, running, k, added) && pids[k] in running
    requires Grown(w, before, before + newcomers, pids[k]) && ChildrenListed(w, before + newcomers, pids[k])
    requires before !! newcomers
    requires before == added + KeptOf(pids, running, k) + (set i | k <= i < |pids| :: pids[i])
    requires pids[k] !in added
    ensures PassSets(w, pids, running, k + 1, added + newcomers)
  {
    var kept, from, from' := KeptOf(pids, running, |pids|), KeptOf(pids, running, k), KeptOf(pids, running, k + 1);
    KeptOneMore(pids, running, k);
    KeptListed(pids, running, k);
    assert NothingElse(w, kept, from', added + newcomers) by {
      NothingElseOfMore(w, kept, from, from', added);
      forall u | ClosedUnder(w, kept, from', u) ensures newcomers <= u {
        assert Closed(w, before, pids[k], u);
      }
    }
    if !ClosedUnder(w, kept, from, added) {
      NeverAdded(w, pids, running, k, added, before, newcomers);
    }
    if !ClosedUnder(w, kept, from', added + newcomers) && ClosedUnder(w, kept, from, added) {
      MissedIsStillListed(w, pids, running, k, added, before, newcomers);
    }
  }

  lemma {:induction false} KeptListed(pids: seq<Key>, running: set<Key>, k: nat)
    requires k <= |pids|
    ensures KeptOf(pids, running, |pids|) <= KeptOf(pids, running, k) + set i | k <= i < |pids| :: pids[i]
  {
  }

  /** A child that was missed has no other parent, and its parent is not asked again. */
  lemma {:induction false} NeverAdded(w: World, pids: seq<Key>, running: set<Key>, k: nat, added: set<Key>,
          before: set<Key>, newcomers: set<Key>)
    requires k < |pids| && Distinct(pids) && pids[k] in running && pids[k] !in added
    requires Grown(w, before, before + newcomers, pids[k]) && ChildrenListed(w, before + newcomers, pids[k])
    requires before !! newcomers
    requires added + KeptOf(pids, running, k) <= before
    requires !ClosedUnder(w, KeptOf(pids, running, |pids|), KeptOf(pids, running, k), added)
    ensures !ClosedUnder(w, KeptOf(pids, running, |pids|), KeptOf(pids, running, k + 1), added + newcomers)
  {
    var kept, from := KeptOf(pids, running, |pids|), KeptOf(pids, running, k);
    var c, p :| ChildOf(w, c, p) && (p in from || p in added) && c !in kept && c !in added;
    assert p != pids[k];
    assert Closed(w, before, pids[k], newcomers - {c});
    assert c !in newcomers;
    KeptOneMore(pids, running, k);
  }

  lemma {:induction false} MissedIsStillListed(w: World, pids: seq<Key>, running: set<Key>, k: nat, added: set<Key>,
          before: set<Key>, newcomers: set<Key>)
    requires k < |pids| && pids[k] in running && before !! newcomers
    requires Grown(w, before, before + newcomers, pids[k]) && ChildrenListed(w, before + newcomers, pids[k])
    requires before == added + KeptOf(pids, running, k) + (set i | k <= i < |pids| :: pids[i])
    requires NothingElse(w, KeptOf(pids, running, |pids|), KeptOf(pids, running, k + 1), added + newcomers)
    requires ClosedUnder(w, KeptOf(pids, running, |pids|), KeptOf(pids, running, k), added)
    requires !ClosedUnder(w, KeptOf(pids, running, |pids|), KeptOf(pids, running, k + 1), added + newcomers)
    ensures !NoneStillListed(w, pids, running)
  {
    var kept, from, from' := KeptOf(pids, running, |pids|), KeptOf(pids, running, k), KeptOf(pids, running, k + 1);
    KeptOneMore(pids, running, k);
    KeptGrows(pids, running, k, |pids|);
    var c, p :| ChildOf(w, c, p) && (p in from' || p in added + newcomers) && c !in kept && c !in added + newcomers;
    assert p == pids[k] || p in newcomers;
    assert c in before + newcomers;
    var m :| k <= m < |pids| && pids[m] == c;
    assert m > k;
    KeptGrows(pids, running, k + 1, m);
    NothingElseOfMore(w, kept, from', KeptOf(pids, running, m), added + newcomers);
    assert StillListed(w, pids, running, m);
  }

  /**
   A process that is still listed, though dead, when its parent is asked for its children is missed;
   had it stood before its parent, it would have been removed in time.
   */
  lemma {:induction false} OrderDecides(parent: Pid, child: Key, running: set<Key>)
    requires child != 0 && parent in running && child !in running
    ensures var w := World(map[child := parent], {child});
      && StillListed(w, [parent, child], running, 1)
      && NoneStillListed(w, [child, parent], running)
  {
    var w := World(map[child := parent], {child});
    var kept := KeptOf([child, parent], running, 2);
    var pids := [parent, child];
    assert pids[0] in KeptOf(pids, running, 1);
    assert KeptOf([child, parent], running, 0) == {};
    assert ClosedUnder(w, kept, {}, {});
    assert !({parent} <= {}) by { assert parent in {parent}; }
  }
}
