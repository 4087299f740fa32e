/** The loop of src/linux/py_proc.h that turns the lines of a maps file into the range tree. */
module VmMaps {
  import opened Common
  import opened HashTables
  import opened RangeModel
  import HashModel
  import opened RangeTrees

  /** A line with a file path, or any other: no path, or one in square brackets. */
  datatype Line = Mapped(lower: nat, upper: nat, path: string) | Other

  const MAX_RANGES := 256

  ghost predicate Ascending(lines: seq<Line>) {
    && (forall i :: 0 <= i < |lines| && lines[i].Mapped? ==> lines[i].lower < lines[i].upper)
    && forall i, j :: 0 <= i < j < |lines| && lines[i].Mapped? && lines[j].Mapped? ==>
         lines[i].upper <= lines[j].lower
  }

  /** The first line with a path repeats the path left over from an earlier call. */
  ghost predicate StartsWith(lines: seq<Line>, path: string) {
    exists i :: 0 <= i < |lines| && lines[i].Mapped? && lines[i].path == path
      && forall j :: 0 <= j < i ==> lines[j].Other?
  }

  ghost predicate Covers(r: Range, line: Line)
    requires line.Mapped?
  {
    r.name == line.path && r.lo <= line.lower && line.upper <= r.hi
  }

  /** The address is in a range, and only in ranges with the given name. */
  ghost predicate FoundAs(rs: seq<Range>, addr: nat, name: string) {
    && (exists r :: r in rs && Within(r, addr))
    && forall r :: r in rs && Within(r, addr) ==> r.name == name
  }

  /** The range goes from one line with its name to another. */
  ghost predicate Bounded(lines: seq<Line>, i: nat, r: Range)
    requires i <= |lines|
  {
    && (exists j :: 0 <= j < i && lines[j].Mapped? && lines[j].path == r.name && lines[j].lower == r.lo)
    && (exists j :: 0 <= j < i && lines[j].Mapped? && lines[j].path == r.name && lines[j].upper == r.hi)
  }

  ghost predicate InOrder(vals: seq<Range>) {
    forall k, l :: 0 <= k < l < |vals| ==> vals[k].hi <= vals[l].lo
  }

  ghost predicate NamesAlternate(vals: seq<Range>) {
    forall k :: 0 <= k < |vals| - 1 ==> vals[k].name != vals[k + 1].name
  }

  /** The lines still to come are beyond the ranges. */
  ghost predicate Beyond(lines: seq<Line>, i: nat, vals: seq<Range>) {
    forall k, j :: 0 <= k < |vals| && i <= j < |lines| && lines[j].Mapped? ==> vals[k].hi <= lines[j].lower
  }

  /** Each line read is in the range that it was merged into. */
  ghost predicate Owned(lines: seq<Line>, i: nat, vals: seq<Range>, owner: seq<nat>) {
    && i <= |lines| && |owner| == i
    && (forall j :: 0 <= j < i && lines[j].Mapped? ==> owner[j] < |vals| && Covers(vals[owner[j]], lines[j]))
    && (vals == [] <==> forall j :: 0 <= j < i ==> lines[j].Other?)
  }

  /** The state of the merging loop after the first `i` lines gave the ranges `vals`. */
  ghost predicate Merged(lines: seq<Line>, i: nat, vals: seq<Range>, owner: seq<nat>) {
    && Owned(lines, i, vals, owner) && NonEmpty(vals) && InOrder(vals) && NamesAlternate(vals) && Beyond(lines, i, vals)
  }

  ghost predicate AllBounded(lines: seq<Line>, i: nat, vals: seq<Range>) {
    i <= |lines| && forall k :: 0 <= k < |vals| ==> Bounded(lines, i, vals[k])
  }

  lemma {:induction false} BoundedMore(lines: seq<Line>, i: nat, vals: seq<Range>)
    requires AllBounded(lines, i, vals) && i < |lines|
    ensures AllBounded(lines, i + 1, vals)
  {
    forall k | 0 <= k < |vals| ensures Bounded(lines, i + 1, vals[k]) {
      assert Bounded(lines, i, vals[k]);
    }
  }

  lemma {:induction false} BoundedNew(lines: seq<Line>, i: nat, vals: seq<Range>)
    requires AllBounded(lines, i, vals) && i < |lines| && lines[i].Mapped?
    ensures AllBounded(lines, i + 1, vals + [Range(lines[i].lower, lines[i].upper, lines[i].path)])
  {
    BoundedMore(lines, i, vals);
    assert Bounded(lines, i + 1, Range(lines[i].lower, lines[i].upper, lines[i].path));
  }

  lemma {:induction false} BoundedSame(lines: seq<Line>, i: nat, vals: seq<Range>, n: nat)
    requires AllBounded(lines, i, vals) && i < |lines| && lines[i].Mapped?
    requires n < |vals| && vals[n].name == lines[i].path
    ensures AllBounded(lines, i + 1, vals[n := vals[n].(hi := lines[i].upper)])
  {
    BoundedMore(lines, i, vals);
    assert Bounded(lines, i + 1, vals[n]);
    assert Bounded(lines, i + 1, vals[n].(hi := lines[i].upper));
  }

  lemma {:induction false} MergedBegins(lines: seq<Line>)
    ensures Merged(lines, 0, [], []) && AllBounded(lines, 0, [])
  {
  }

  lemma {:induction false} MergedOther(lines: seq<Line>, i: nat, vals: seq<Range>, owner: seq<nat>)
    requires Merged(lines, i, vals, owner) && i < |lines| && lines[i].Other?
    ensures Merged(lines, i + 1, vals, owner + [0])
  {
  }

  lemma {:induction false} MergedNew(lines: seq<Line>, i: nat, vals: seq<Range>, owner: seq<nat>)
    requires Ascending(lines) && Merged(lines, i, vals, owner) && i < |lines| && lines[i].Mapped?
    requires vals != [] ==> vals[|vals| - 1].name != lines[i].path
    ensures Merged(lines, i + 1, vals + [Range(lines[i].lower, lines[i].upper, lines[i].path)], owner + [|vals|])
  {
    var r := Range(lines[i].lower, lines[i].upper, lines[i].path);
    assert Owned(lines, i + 1, vals + [r], owner + [|vals|]) by { OwnedNew(lines, i, vals, owner, r); }
    assert Beyond(lines, i + 1, vals + [r]) by { BeyondNew(lines, i, vals, r); }
    hide Owned, Beyond, Ascending;
    assert lines[i].lower < lines[i].upper by { AscendingLine(lines, i); }
    assert forall k :: 0 <= k < |vals| ==> vals[k].hi <= r.lo by { BeyondLine(lines, i, vals); }
  }

  lemma {:induction false} AscendingLine(lines: seq<Line>, i: nat)
    requires Ascending(lines) && i < |lines| && lines[i].Mapped?
    ensures lines[i].lower < lines[i].upper
  {
  }

  lemma {:induction false} BeyondLine(lines: seq<Line>, i: nat, vals: seq<Range>)
    requires Beyond(lines, i, vals) && i < |lines| && lines[i].Mapped?
    ensures forall k :: 0 <= k < |vals| ==> vals[k].hi <= lines[i].lower
  {
  }

  lemma {:induction false} OwnedNew(lines: seq<Line>, i: nat, vals: seq<Range>, owner: seq<nat>, r: Range)
    requires Owned(lines, i, vals, owner) && i < |lines| && lines[i].Mapped? && Covers(r, lines[i])
    ensures Owned(lines, i + 1, vals + [r], owner + [|vals|])
  {
  }

  lemma {:induction false} BeyondNew(lines: seq<Line>, i: nat, vals: seq<Range>, r: Range)
    requires Ascending(lines) && Beyond(lines, i, vals) && i < |lines| && lines[i].Mapped? && r.hi == lines[i].upper
    ensures Beyond(lines, i + 1, vals + [r])
  {
  }

  lemma {:induction false} MergedSame(lines: seq<Line>, i: nat, vals: seq<Range>, owner: seq<nat>)
    requires Ascending(lines) && Merged(lines, i, vals, owner) && i < |lines| && lines[i].Mapped?
    requires vals != [] && vals[|vals| - 1].name == lines[i].path
    ensures var n := |vals| - 1;
      Merged(lines, i + 1, vals[n := vals[n].(hi := lines[i].upper)], owner + [n])
  {
    var n := |vals| - 1;
    var vals' := vals[n := vals[n].(hi := lines[i].upper)];
    BeyondLine(lines, i, vals);
    AscendingLine(lines, i);
    assert vals[n].lo < vals[n].hi <= lines[i].lower;
    assert Owned(lines, i + 1, vals', owner + [n]) by {
      hide Beyond, Ascending, NonEmpty, InOrder, NamesAlternate;
    }
    assert Beyond(lines, i + 1, vals') by {
      hide Owned, NonEmpty, InOrder, NamesAlternate;
    }
    hide Owned, Beyond, Ascending;
  }

  lemma {:induction false} MergedDisjoint(lines: seq<Line>, i: nat, vals: seq<Range>, owner: seq<nat>)
    requires Merged(lines, i, vals, owner)
    ensures NonEmpty(vals) && PairwiseDisjoint(vals)
  {
  }

  lemma {:induction false} MergedFound(lines: seq<Line>, i: nat, vals: seq<Range>, owner: seq<nat>, j: nat, addr: nat)
    requires Merged(lines, i, vals, owner) && j < i && lines[j].Mapped? && lines[j].lower <= addr < lines[j].upper
    ensures FoundAs(vals, addr, lines[j].path)
  {
    var k := owner[j];
    assert vals[k] in vals && Within(vals[k], addr);
    forall r | r in vals && Within(r, addr) ensures r == vals[k] {
      var l :| 0 <= l < |vals| && vals[l] == r;
      assert l == k;
    }
  }

  ghost predicate Loose(ranges: array<VmRange?>, nrange: nat, vals: seq<Range>)
    requires nrange <= ranges.Length
    reads ranges, set k | 0 <= k < nrange :: ranges[k]
  {
    && |vals| == nrange
    && (forall k, l :: 0 <= k < l < nrange ==> ranges[k] != ranges[l])
    && forall k :: 0 <= k < nrange ==> LooseNode(ranges[k], vals[k])
  }

  ghost predicate LooseNode(node: VmRange?, val: Range)
    reads node
  {
    && node != null && node.Repr == {node} && node.Valid()
    && node.range == val && node.tree == Node(val, Leaf, Leaf, 1)
  }

  lemma {:induction false} LooseNone(ranges: array<VmRange?>)
    ensures Loose(ranges, 0, [])
  {
  }

  method Append(ranges: array<VmRange?>, nrange: nat, lower: nat, upper: nat, path: string, ghost vals: seq<Range>)
    requires nrange < ranges.Length && Loose(ranges, nrange, vals)
    modifies ranges
    ensures Loose(ranges, nrange + 1, vals + [Range(lower, upper, path)])
    ensures fresh(ranges[nrange]) && forall k :: 0 <= k < nrange ==> ranges[k] == old(ranges[k])
  {
    ranges[nrange] := new VmRange(lower, upper, path);
    forall k | 0 <= k < nrange ensures LooseNode(ranges[k], vals[k]) {
      assert old(LooseNode(ranges[k], vals[k]));
    }
  }

  method ExtendLast(ranges: array<VmRange?>, nrange: nat, upper: nat, ghost vals: seq<Range>)
    requires 0 < nrange <= ranges.Length && Loose(ranges, nrange, vals)
    modifies ranges[nrange - 1]
    ensures Loose(ranges, nrange, vals[nrange - 1 := vals[nrange - 1].(hi := upper)])
  {
    assert LooseNode(ranges[nrange - 1], vals[nrange - 1]);
    ranges[nrange - 1].ExtendTo(upper);
    forall k | 0 <= k < nrange - 1 ensures LooseNode(ranges[k], vals[k]) {
      assert old(LooseNode(ranges[k], vals[k]));
    }
  }

  // ---- Base addresses ---------------------------------------------------------------------------------

  /** The base address of each path hash: that of the first range that has it. */
  function Bases(vals: seq<Range>, hash: string -> Key): map<Key, nat> {
    if vals == [] then map[]
    else
      var r := vals[|vals| - 1];
      AddedBase(Bases(vals[..|vals| - 1], hash), hash(r.name), r.lo)
  }

  /** Address 0 is NULL: it is not found again, and neither is the key 0. */
  function AddedBase(m: map<Key, nat>, key: Key, lo: nat): map<Key, nat> {
    if key != 0 && key in m then m else if lo == 0 then m - {key} else m[key := lo]
  }

  lemma {:induction false} NoBases(hash: string -> Key)
    ensures Bases([], hash) == map[]
  {
  }

  lemma {:induction false} BasesMore(vals: seq<Range>, r: Range, hash: string -> Key)
    ensures Bases(vals + [r], hash) == AddedBase(Bases(vals, hash), hash(r.name), r.lo)
  {
    assert (vals + [r])[..|vals|] == vals;
  }

  lemma {:induction false} BasesSame(vals: seq<Range>, hi: nat, hash: string -> Key)
    requires vals != []
    ensures var n := |vals| - 1; Bases(vals[n := vals[n].(hi := hi)], hash) == Bases(vals, hash)
  {
    var n := |vals| - 1;
    assert vals[n := vals[n].(hi := hi)][..n] == vals[..n];
  }

  /** The ranges whose path has this hash. */
  ghost predicate Hashes(vals: seq<Range>, hash: string -> Key, key: Key, k: nat) {
    k < |vals| && hash(vals[k].name) == key && vals[k].lo != 0
  }

  /** A key has a base exactly when some range has it, and then it is the lowest of their bounds. */
  lemma {:induction false} BaseIsLowest(vals: seq<Range>, hash: string -> Key, key: Key)
    requires key != 0 && forall k, l :: 0 <= k < l < |vals| ==> vals[k].hi <= vals[l].lo
    requires NonEmpty(vals)
    ensures key in Bases(vals, hash) <==> exists k: nat :: Hashes(vals, hash, key, k)
    ensures key in Bases(vals, hash) ==>
      && (exists k: nat :: Hashes(vals, hash, key, k) && vals[k].lo == Bases(vals, hash)[key])
      && forall k: nat :: Hashes(vals, hash, key, k) ==> Bases(vals, hash)[key] <= vals[k].lo
  {
    if vals != [] {
      var n := |vals| - 1;
      BaseIsLowest(vals[..n], hash, key);
      forall k: nat | k < n ensures Hashes(vals, hash, key, k) <==> Hashes(vals[..n], hash, key, k) {
      }
      if key in Bases(vals[..n], hash) {
        var k: nat :| Hashes(vals[..n], hash, key, k) && vals[..n][k].lo == Bases(vals[..n], hash)[key];
        assert Hashes(vals, hash, key, k) && vals[k].hi <= vals[n].lo && vals[k].lo < vals[k].hi;
      } else if Hashes(vals, hash, key, n) {
        assert Bases(vals, hash)[key] == vals[n].lo;
      }
    }
  }

  method AddBase(table: HashTable<nat>, key: Key, lower: nat)
    requires table.Valid() && table.model.size < table.model.capacity
    modifies table.Repr
    ensures table.Valid() && fresh(table.Repr - old(table.Repr)) && table.model.capacity == old(table.model.capacity)
    ensures table.model.size <= old(table.model.size) + 1
    ensures Observed(table) == AddedBase(old(Observed(table)), key, lower)
  {
    hide HashTable.Valid, HashModel.WellFormed, HashModel.Observed, HashModel.Set, HashModel.Get;
    TableIsWellFormed(table);
    HashModel.GetObserves(table.model, key);
    var base := table.Get(key);
    if base == None {
      HashModel.SetObserves(table.model, key, if lower == 0 then None else Some(lower));
      table.Set(key, if lower == 0 then None else Some(lower));
    }
  }

  ghost function Observed(table: HashTable<nat>): map<Key, nat>
    requires table.Valid()
    reads table, table.Repr
  {
    TableIsWellFormed(table);
    HashModel.Observed(table.model)
  }

  lemma {:induction false} TableIsWellFormed(table: HashTable<nat>)
    requires table.Valid()
    ensures HashModel.WellFormed(table.model) && 0 < table.model.capacity == |table.model.buckets|
  {
  }

  // ---- The loop -----------------------------------------------------------------------------------------

  /** The table has room for another base, and is apart from the ranges. */
  ghost predicate Ready(table: HashTable<nat>, ranges: array<VmRange?>, nrange: nat)
    requires nrange <= ranges.Length
    reads table, table.Repr, ranges
  {
    && table.Valid() && table.model.size <= nrange && table.model.capacity == MAX_RANGES
    && ranges !in table.Repr && forall k :: 0 <= k < nrange ==> ranges[k] !in table.Repr
  }

  method StartRange(ranges: array<VmRange?>, nrange: nat, lower: nat, upper: nat, path: string,
          table: HashTable<nat>, hash: string -> Key, ghost vals: seq<Range>)
    requires nrange < ranges.Length == MAX_RANGES && Loose(ranges, nrange, vals) && Ready(table, ranges, nrange)
    modifies ranges, table.Repr
    ensures Loose(ranges, nrange + 1, vals + [Range(lower, upper, path)]) && Ready(table, ranges, nrange + 1)
    ensures fresh(table.Repr - old(table.Repr))
    ensures fresh(ranges[nrange]) && forall k :: 0 <= k < nrange ==> ranges[k] == old(ranges[k])
    ensures Observed(table) == AddedBase(old(Observed(table)), hash(path), lower)
  {
    hide HashTable.Valid, Loose, Observed, AddedBase;
    AddBase(table, hash(path), lower);
    Append(ranges, nrange, lower, upper, path, vals);
  }

  /** Merge runs of lines with equal paths; the path of the previous call is still in `prevPathname`. */
  method MergeLines(lines: seq<Line>, prevPathname: string, ranges: array<VmRange?>, table: HashTable<nat>,
          hash: string -> Key)
    returns (ok: bool, nrange: nat, i: nat, ghost vals: seq<Range>, ghost owner: seq<nat>)
    requires Ascending(lines) && ranges.Length == MAX_RANGES && Ready(table, ranges, 0) && Observed(table) == map[]
    modifies ranges, table.Repr
    ensures ok <==> !StartsWith(lines, prevPathname)
    ensures i <= |lines| && (ok ==> i == |lines| || nrange == 256)
    ensures ok ==> nrange <= MAX_RANGES && Loose(ranges, nrange, vals)
    ensures ok ==> Merged(lines, i, vals, owner) && AllBounded(lines, i, vals)
    ensures ok ==> forall k :: 0 <= k < nrange ==> fresh(ranges[k])
    ensures table.Valid() && fresh(table.Repr - old(table.Repr))
    ensures ok ==> Ready(table, ranges, nrange) && Observed(table) == Bases(vals, hash)
  {
    hide Merged, Ascending, AllBounded, Loose, LooseNode, HashTable.Valid, Observed, AddedBase, Bases;
    NoBases(hash);
    LooseNone(ranges);
    var prev := prevPathname;
    ok, nrange, i, vals, owner := true, 0, 0, [], [];
    MergedBegins(lines);
    while i < |lines| && nrange < MAX_RANGES
      invariant 0 <= i <= |lines| && nrange <= MAX_RANGES && ranges.Length == MAX_RANGES
      invariant Loose(ranges, nrange, vals) && |vals| == nrange
      invariant Merged(lines, i, vals, owner) && AllBounded(lines, i, vals)
      invariant forall k :: 0 <= k < nrange ==> fresh(ranges[k])
      invariant Ready(table, ranges, nrange) && fresh(table.Repr - old(table.Repr))
      invariant Observed(table) == Bases(vals, hash)
      invariant if nrange == 0 then prev == prevPathname && forall j :: 0 <= j < i ==> lines[j].Other?
                else prev == vals[nrange - 1].name && !StartsWith(lines, prevPathname)
      decreases |lines| - i
    {
      match lines[i] {
        case Other =>
          MergedOther(lines, i, vals, owner);
          BoundedMore(lines, i, vals);
          owner := owner + [0];
        case Mapped(lower, upper, path) =>
          if path != prev {
            MergedNew(lines, i, vals, owner);
            BoundedNew(lines, i, vals);
            BasesMore(vals, Range(lower, upper, path), hash);
            StartRange(ranges, nrange, lower, upper, path, table, hash, vals);
            nrange, prev := nrange + 1, path;
            vals, owner := vals + [Range(lower, upper, path)], owner + [|vals|];
          } else if nrange == 0 {
            ok := false;  // the write goes to ranges[-1]
            return;
          } else {
            MergedSame(lines, i, vals, owner);
            BoundedSame(lines, i, vals, nrange - 1);
            BasesSame(vals, upper, hash);
            ExtendLast(ranges, nrange, upper, vals);
            vals := vals[nrange - 1 := vals[nrange - 1].(hi := upper)];
            owner := owner + [nrange - 1];
          }
      }
      i := i + 1;
    }
  }

  /**
   Build the tree.  Without a leftover path that repeats (in which case a range before the first is
   written), every address of a file-backed line that was read is found under that line's path.
   */
  method GetVmMaps(lines: seq<Line>, prevPathname: string, hash: string -> Key)
    returns (tree: VmRangeTree?, bases: HashTable<nat>, ghost used: nat)
    requires Ascending(lines)
    ensures tree == null <==> StartsWith(lines, prevPathname)
    ensures tree != null ==> tree.Valid() && fresh(tree.Repr) && AllBounded(lines, used, tree.inserted)
    ensures tree != null ==> used == |lines| || (used < |lines| && |tree.inserted| == 256)
    ensures tree != null ==> forall j, addr ::
      0 <= j < used && lines[j].Mapped? && lines[j].lower <= addr < lines[j].upper ==>
        FoundAs(tree.inserted, addr, lines[j].path)
    ensures bases.Valid() && fresh(bases.Repr)
    ensures tree != null ==> Observed(bases) == Bases(tree.inserted, hash)
  {
    hide Merged, Ascending, AllBounded, FoundAs, Covers, HashTable.Valid, Bases, LooseNode;
    bases := new HashTable(MAX_RANGES);
    HashModel.EmptyIsWellFormed<nat>(MAX_RANGES);
    var ranges := new VmRange?[MAX_RANGES](_ => null);
    var ok, nrange;
    ghost var vals, owner;
    ok, nrange, used, vals, owner := MergeLines(lines, prevPathname, ranges, bases, hash);
    if !ok {
      return null, bases, 0;
    }
    MergedDisjoint(lines, used, vals, owner);
    tree := AddAll(ranges, nrange, vals);
    forall j, addr | 0 <= j < used && lines[j].Mapped? && lines[j].lower <= addr < lines[j].upper
      ensures FoundAs(vals, addr, lines[j].path)
    {
      MergedFound(lines, used, vals, owner, j, addr);
    }
  }

  lemma {:induction false} PrefixDisjoint(vals: seq<Range>, i: nat)
    requires NonEmpty(vals) && PairwiseDisjoint(vals) && i <= |vals|
    ensures NonEmpty(vals[..i]) && PairwiseDisjoint(vals[..i])
  {
    forall k, l | 0 <= k < l < i ensures Apart(vals[..i][k], vals[..i][l]) {
      assert Apart(vals[k], vals[l]);
    }
  }

  /** Insert the merged ranges one by one. */
  method AddAll(ranges: array<VmRange?>, nrange: nat, ghost vals: seq<Range>) returns (tree: VmRangeTree)
    requires nrange <= ranges.Length && Loose(ranges, nrange, vals)
    requires NonEmpty(vals) && PairwiseDisjoint(vals)
    modifies set k | 0 <= k < nrange :: ranges[k]
    ensures tree.Valid() && tree.inserted == vals
    ensures forall o :: o in tree.Repr ==> fresh(o) || exists k :: 0 <= k < nrange && o == ranges[k]
  {
    hide NonEmpty, PairwiseDisjoint;
    tree := new VmRangeTree();
    var i := 0;
    while i < nrange
      invariant 0 <= i <= nrange && tree.Valid() && tree.inserted == vals[..i]
      invariant |vals| == nrange
      invariant forall k :: i <= k < nrange ==> LooseNode(ranges[k], vals[k]) && ranges[k] !in tree.Repr
      invariant forall o :: o in tree.Repr ==> fresh(o) || exists k :: 0 <= k < i && o == ranges[k]
    {
      PrefixDisjoint(vals, i + 1);
      assert vals[..i + 1] == vals[..i] + [vals[i]];
      tree.Add(ranges[i]);
      i := i + 1;
    }
    assert vals[..i] == vals;
  }
}
