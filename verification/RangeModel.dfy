/** The AVL tree of src/linux/vm-range-tree.h as a value. */
module RangeModel {
  import opened Common

  datatype Range = Range(lo: nat, hi: nat, name: string)

  /** `height` is the stored one; that it is exact is a theorem, not part of the type. */
  datatype Tree = Leaf | Node(range: Range, left: Tree, right: Tree, height: int)

  function Height(t: Tree): int {
    if t.Leaf? then 0 else t.height
  }

  function Max(a: int, b: int): int {
    if a > b then a else b
  }

  function Balance(t: Tree): int {
    if t.Leaf? then 0 else Height(t.left) - Height(t.right)
  }

  /** A node over two subtrees, with its height recomputed from theirs. */
  function Join(range: Range, left: Tree, right: Tree): Tree {
    Node(range, left, right, Max(Height(left), Height(right)) + 1)
  }

  /** The rotations dereference the child they lift: without one there is no result. */
  function RotateRight(t: Tree): Option<Tree> {
    match t
    case Node(r, Node(x, a, b, _), c, _) => Some(Join(x, a, Join(r, b, c)))
    case _ => None
  }

  function RotateLeft(t: Tree): Option<Tree> {
    match t
    case Node(r, a, Node(y, b, c, _), _) => Some(Join(y, Join(r, a, b), c))
    case _ => None
  }

  function Rebalance(t: Tree, lo: nat): Option<Tree>
    requires t.Node?
  {
    if Balance(t) > 1 then
      if t.left.Leaf? then None
      else if lo < t.left.range.lo then RotateRight(t)
      else
        match RotateLeft(t.left)
        case None => None
        case Some(l) => RotateRight(t.(left := l))
    else if Balance(t) < -1 then
      if t.right.Leaf? then None
      else if lo > t.right.range.lo then RotateLeft(t)
      else
        match RotateRight(t.right)
        case None => None
        case Some(r) => RotateLeft(t.(right := r))
    else Some(t)
  }

  function Insert(t: Tree, range: Range): Option<Tree> {
    if t.Leaf? then Some(Node(range, Leaf, Leaf, 1))
    else if range.lo < t.range.lo then
      match Insert(t.left, range)
      case None => None
      case Some(l) => Rebalance(Join(t.range, l, t.right), range.lo)
    else
      match Insert(t.right, range)
      case None => None
      case Some(r) => Rebalance(Join(t.range, t.left, r), range.lo)
  }

  function Find(t: Tree, addr: nat): Option<Range> {
    if t.Leaf? then None
    else if t.range.lo <= addr < t.range.hi then Some(t.range)
    else Find(if addr < t.range.lo then t.left else t.right, addr)
  }

  /** The nodes a search looks at. */
  function Visits(t: Tree, addr: nat): nat {
    if t.Leaf? then 0
    else if t.range.lo <= addr < t.range.hi then 1
    else 1 + Visits(if addr < t.range.lo then t.left else t.right, addr)
  }

  // ---- Shape --------------------------------------------------------------------------------------

  /** Every stored height is exact and every balance factor is within -1..1. */
  predicate Avl(t: Tree) {
    t.Node? ==>
      && Avl(t.left) && Avl(t.right)
      && t.height == 1 + Max(Height(t.left), Height(t.right))
      && -1 <= Balance(t) <= 1
  }

  lemma {:induction false} AvlHeights(t: Tree)
    requires Avl(t)
    ensures Height(t) >= 0 && (Height(t) == 0 <==> t == Leaf)
  {
    if t.Node? {
      AvlHeights(t.left);
      AvlHeights(t.right);
    }
  }

  /** When an insertion makes a node taller, it does so on the side the range went to. */
  ghost predicate GrownBy(t: Tree, r: Tree, lo: nat) {
    && Height(t) <= Height(r) <= Height(t) + 1
    && (Height(r) == Height(t) + 1 && t.Node? ==>
          && r.Node? && r.range == t.range
          && Balance(r) == if lo < t.range.lo then 1 else -1)
  }

  /** The four rotation cases: a subtree grew too tall, and on which side of its root. */
  lemma {:induction false} LeftLeft(r: Range, l: Tree, c: Tree)
    requires l.Node? && Avl(l) && Avl(c) && Height(l) == Height(c) + 2 && Balance(l) == 1
    ensures var q := RotateRight(Join(r, l, c));
      q.Some? && Avl(q.value) && Height(q.value) == Height(l) && q.value.Node?
  {
    AvlHeights(l.left);
  }

  lemma {:induction false} LeftRight(r: Range, l: Tree, c: Tree)
    requires l.Node? && Avl(l) && Avl(c) && Height(l) == Height(c) + 2 && Balance(l) == -1
    ensures RotateLeft(l).Some?
    ensures var q := RotateRight(Node(r, RotateLeft(l).value, c, Max(Height(l), Height(c)) + 1));
      q.Some? && Avl(q.value) && Height(q.value) == Height(l) && q.value.Node?
  {
    AvlHeights(l.left);
    AvlHeights(l.right);
    AvlHeights(l.right.left);
    AvlHeights(l.right.right);
  }

  lemma {:induction false} RightRight(r: Range, a: Tree, l: Tree)
    requires l.Node? && Avl(l) && Avl(a) && Height(l) == Height(a) + 2 && Balance(l) == -1
    ensures var q := RotateLeft(Join(r, a, l));
      q.Some? && Avl(q.value) && Height(q.value) == Height(l) && q.value.Node?
  {
    AvlHeights(l.right);
  }

  lemma {:induction false} RightLeft(r: Range, a: Tree, l: Tree)
    requires l.Node? && Avl(l) && Avl(a) && Height(l) == Height(a) + 2 && Balance(l) == 1
    ensures RotateRight(l).Some?
    ensures var q := RotateLeft(Node(r, a, RotateRight(l).value, Max(Height(a), Height(l)) + 1));
      q.Some? && Avl(q.value) && Height(q.value) == Height(l) && q.value.Node?
  {
    AvlHeights(l.left);
    AvlHeights(l.right);
    AvlHeights(l.left.left);
    AvlHeights(l.left.right);
  }

  lemma {:induction false} LeftCase(t: Tree, l: Tree, lo: nat)
    requires t.Node? && Avl(t) && Avl(l) && l.Node? && lo < t.range.lo && GrownBy(t.left, l, lo)
    ensures var r := Rebalance(Join(t.range, l, t.right), lo);
      r.Some? && Avl(r.value) && GrownBy(t, r.value, lo) && r.value.Node?
  {
    AvlHeights(t.left);
    AvlHeights(t.right);
    if Height(l) - Height(t.right) > 1 {
      if lo < l.range.lo {
        LeftLeft(t.range, l, t.right);
      } else {
        LeftRight(t.range, l, t.right);
      }
    }
  }

  lemma {:induction false} RightCase(t: Tree, r: Tree, lo: nat)
    requires t.Node? && Avl(t) && Avl(r) && r.Node? && lo >= t.range.lo && GrownBy(t.right, r, lo)
    requires t.right.Node? ==> lo != t.right.range.lo
    ensures var q := Rebalance(Join(t.range, t.left, r), lo);
      q.Some? && Avl(q.value) && GrownBy(t, q.value, lo) && q.value.Node?
  {
    AvlHeights(t.left);
    AvlHeights(t.right);
    if Height(t.left) - Height(r) < -1 {
      if lo > r.range.lo {
        RightRight(t.range, t.left, r);
      } else {
        RightLeft(t.range, t.left, r);
      }
    }
  }

  // ---- Order --------------------------------------------------------------------------------------

  function Inorder(t: Tree): seq<Range> {
    if t.Leaf? then [] else Inorder(t.left) + [t.range] + Inorder(t.right)
  }

  ghost predicate Sorted(rs: seq<Range>) {
    forall i, j :: 0 <= i < j < |rs| ==> rs[i].lo < rs[j].lo
  }

  /** Insertion into a sorted list: what the tree's insertion comes to. */
  function InsertSorted(rs: seq<Range>, r: Range): seq<Range> {
    if rs == [] then [r] else if r.lo < rs[0].lo then [r] + rs else [rs[0]] + InsertSorted(rs[1..], r)
  }

  lemma {:induction false} RotationsKeepOrder(t: Tree)
    ensures RotateRight(t).Some? ==> Inorder(RotateRight(t).value) == Inorder(t)
    ensures RotateLeft(t).Some? ==> Inorder(RotateLeft(t).value) == Inorder(t)
  {
    if t.Node? && t.left.Node? {
      var a, b, c := Inorder(t.left.left), Inorder(t.left.right), Inorder(t.right);
      assert a + [t.left.range] + (b + [t.range] + c) == (a + [t.left.range] + b) + [t.range] + c;
    }
    if t.Node? && t.right.Node? {
      var a, b, c := Inorder(t.left), Inorder(t.right.left), Inorder(t.right.right);
      assert (a + [t.range] + b) + [t.right.range] + c == a + [t.range] + (b + [t.right.range] + c);
    }
  }

  lemma {:induction false} RebalanceKeepsOrder(t: Tree, lo: nat)
    requires t.Node? && Rebalance(t, lo).Some?
    ensures Inorder(Rebalance(t, lo).value) == Inorder(t)
  {
    RotationsKeepOrder(t);
    RotationsKeepOrder(t.left);
    RotationsKeepOrder(t.right);
    if RotateLeft(t.left).Some? {
      RotationsKeepOrder(t.(left := RotateLeft(t.left).value));
    }
    if RotateRight(t.right).Some? {
      RotationsKeepOrder(t.(right := RotateRight(t.right).value));
    }
  }

  lemma {:induction false} InsertSortedLeft(xs: seq<Range>, x: Range, ys: seq<Range>, r: Range)
    requires r.lo < x.lo
    ensures InsertSorted(xs + [x] + ys, r) == InsertSorted(xs, r) + [x] + ys
  {
    if xs == [] {
      assert [] + [x] + ys == [x] + ys;
    } else {
      assert (xs + [x] + ys)[1..] == xs[1..] + [x] + ys;
      InsertSortedLeft(xs[1..], x, ys, r);
    }
  }

  lemma {:induction false} InsertSortedRight(xs: seq<Range>, x: Range, ys: seq<Range>, r: Range)
    requires r.lo >= x.lo && Sorted(xs + [x] + ys)
    ensures InsertSorted(xs + [x] + ys, r) == xs + [x] + InsertSorted(ys, r)
  {
    var zs := xs + [x] + ys;
    if xs == [] {
      assert zs == [x] + ys && zs[1..] == ys;
    } else {
      assert zs[1..] == xs[1..] + [x] + ys && zs[|xs|] == x && zs[0] == xs[0];
      InsertSortedRight(xs[1..], x, ys, r);
    }
  }

  ghost predicate NewLo(rs: seq<Range>, lo: nat) {
    forall x :: x in rs ==> x.lo != lo
  }

  lemma {:induction false} InsertSortedContents(rs: seq<Range>, r: Range)
    ensures multiset(InsertSorted(rs, r)) == multiset(rs) + multiset{r}
  {
    if rs != [] {
      assert rs == [rs[0]] + rs[1..];
      InsertSortedContents(rs[1..], r);
    }
  }

  lemma {:induction false} SortedTail(rs: seq<Range>, lo: nat)
    requires Sorted(rs) && NewLo(rs, lo) && rs != []
    ensures Sorted(rs[1..]) && NewLo(rs[1..], lo) && rs[0].lo != lo
    ensures forall x :: x in rs[1..] ==> rs[0].lo < x.lo
  {
    assert rs[0] in rs;
  }

  lemma {:induction false} SortedCons(x: Range, rs: seq<Range>)
    requires Sorted(rs) && forall r :: r in rs ==> x.lo < r.lo
    ensures Sorted([x] + rs)
  {
  }

  lemma {:induction false} InsertSortedSorted(rs: seq<Range>, r: Range)
    requires Sorted(rs) && NewLo(rs, r.lo)
    ensures Sorted(InsertSorted(rs, r))
  {
    if rs != [] {
      hide Sorted, NewLo;
      var rest := rs[1..];
      SortedTail(rs, r.lo);
      assert rs == [rs[0]] + rest;
      if r.lo < rs[0].lo {
        SortedCons(r, rs);
      } else {
        InsertSortedSorted(rest, r);
        InsertSortedMembers(rest, r);
        SortedCons(rs[0], InsertSorted(rest, r));
      }
    }
  }

  lemma {:induction false} InsertSortedMembers(rs: seq<Range>, r: Range)
    ensures forall x :: x in InsertSorted(rs, r) ==> x in rs || x == r
  {
    hide InsertSorted;
    InsertSortedContents(rs, r);
    forall x | x in InsertSorted(rs, r) ensures x in rs || x == r {
      assert x in multiset(InsertSorted(rs, r));
    }
  }

  // ---- One insertion ------------------------------------------------------------------------------

  lemma {:induction false} InsertKeepsShape(t: Tree, range: Range)
    requires Avl(t) && NewLo(Inorder(t), range.lo)
    ensures var r := Insert(t, range);
      r.Some? && r.value.Node? && Avl(r.value) && GrownBy(t, r.value, range.lo)
  {
    if t.Node? {
      if range.lo < t.range.lo {
        InsertKeepsShape(t.left, range);
        LeftCase(t, Insert(t.left, range).value, range.lo);
      } else {
        InsertKeepsShape(t.right, range);
        assert t.right.Node? ==> t.right.range in Inorder(t);
        RightCase(t, Insert(t.right, range).value, range.lo);
      }
    }
  }

  lemma {:induction false} InsertKeepsOrder(t: Tree, range: Range)
    requires Sorted(Inorder(t)) && Insert(t, range).Some?
    ensures Inorder(Insert(t, range).value) == InsertSorted(Inorder(t), range)
  {
    if t.Node? {
      var xs, ys := Inorder(t.left), Inorder(t.right);
      SortedParts(xs, t.range, ys);
      if range.lo < t.range.lo {
        InsertKeepsOrder(t.left, range);
        InsertSortedLeft(xs, t.range, ys, range);
        RebalanceKeepsOrder(Join(t.range, Insert(t.left, range).value, t.right), range.lo);
      } else {
        InsertKeepsOrder(t.right, range);
        InsertSortedRight(xs, t.range, ys, range);
        RebalanceKeepsOrder(Join(t.range, t.left, Insert(t.right, range).value), range.lo);
      }
    }
  }

  lemma {:induction false} SortedParts(xs: seq<Range>, x: Range, ys: seq<Range>)
    requires Sorted(xs + [x] + ys)
    ensures Sorted(xs) && Sorted(ys)
    ensures (forall r :: r in xs ==> r.lo < x.lo) && forall r :: r in ys ==> x.lo < r.lo
  {
    var zs := xs + [x] + ys;
    assert forall i :: 0 <= i < |xs| ==> zs[i] == xs[i];
    assert forall i :: 0 <= i < |ys| ==> zs[|xs| + 1 + i] == ys[i];
    assert zs[|xs|] == x;
  }

  // ---- Equal lower bounds ---------------------------------------------------------------------------

  /** Some node without a left child has a leaf with this bound as its right child. */
  predicate Bare(t: Tree, lo: nat) {
    && t.Node?
    && ((t.left.Leaf? && t.right.Node? && t.right.range.lo == lo && t.right.left.Leaf? && t.right.right.Leaf?)
        || Bare(t.left, lo) || Bare(t.right, lo))
  }

  predicate Exact(t: Tree) {
    t.Node? ==> Exact(t.left) && Exact(t.right) && t.height == 1 + Max(Height(t.left), Height(t.right))
  }

  lemma {:induction false} AvlIsExact(t: Tree)
    requires Avl(t)
    ensures Exact(t)
  {
    if t.Node? {
      AvlIsExact(t.left);
      AvlIsExact(t.right);
    }
  }

  lemma {:induction false} ExactHeight(t: Tree)
    requires Exact(t)
    ensures Height(t) >= 0 && (Height(t) == 0 <==> t == Leaf)
  {
    if t.Node? {
      ExactHeight(t.left);
      ExactHeight(t.right);
    }
  }

  /**
   What an insertion leaves when an equal bound may have misled the rotations: if the tree has grown, it
   leans to the side of the bound.
   */
  ghost predicate Leans(t: Tree, r: Tree, lo: nat) {
    && r.Node? && Exact(r) && Height(t) <= Height(r) <= Height(t) + 1
    && (Height(r) == Height(t) + 1 && t.Node? ==>
          && (if lo < r.range.lo then Balance(r) >= 1 else Balance(r) <= -1)
          && (lo == r.range.lo ==> r.range == t.range && r.left == t.left && Balance(r) == -1))
  }

  lemma {:induction false} LeansLeft(t: Tree, l: Tree, lo: nat)
    requires t.Node? && Avl(t) && lo < t.range.lo && Leans(t.left, l, lo)
    ensures var q := Rebalance(Join(t.range, l, t.right), lo); q.Some? && Leans(t, q.value, lo)
  {
    AvlIsExact(t);
    ExactHeight(t.left);
    ExactHeight(t.right);
    ExactHeight(l.left);
    ExactHeight(l.right);
  }

  lemma {:induction false} LeansRight(t: Tree, r: Tree, lo: nat)
    requires t.Node? && Avl(t) && lo >= t.range.lo && Leans(t.right, r, lo)
    requires t.right.Node? && t.right.left.Node? ==> t.right.left.range.lo < t.right.range.lo
    ensures var q := Rebalance(Join(t.range, t.left, r), lo);
      if q.None? then Bare(t, lo) else Leans(t, q.value, lo)
  {
    AvlIsExact(t);
    ExactHeight(t.left);
    ExactHeight(t.right);
    if Height(r) - Height(t.left) > 1 {
      TallRight(t, r, lo);
    }
  }

  lemma {:induction false} TallRight(t: Tree, r: Tree, lo: nat)
    requires t.Node? && Avl(t) && Exact(t) && lo >= t.range.lo && Leans(t.right, r, lo)
    requires t.right.Node? && t.right.left.Node? ==> t.right.left.range.lo < t.right.range.lo
    requires Height(r) - Height(t.left) > 1 && Height(t.right) >= 0 && Height(t.left) >= 0
    ensures var q := Rebalance(Join(t.range, t.left, r), lo);
      if q.None? then Bare(t, lo) else Leans(t, q.value, lo)
  {
    ExactHeight(t.right);
    ExactHeight(r.left);
    ExactHeight(r.right);
    if r.left.Node? {
      ExactHeight(r.left.left);
      ExactHeight(r.left.right);
    } else if lo == r.range.lo {
      ExactHeight(t.left);
      ExactHeight(t.right.right);
      assert Bare(t, lo);
    }
  }

  lemma {:induction false} SortedChildren(t: Tree)
    requires t.Node? && Sorted(Inorder(t))
    ensures Sorted(Inorder(t.left)) && Sorted(Inorder(t.right))
    ensures forall r :: r in Inorder(t.left) ==> r.lo < t.range.lo
    ensures forall r :: r in Inorder(t.right) ==> t.range.lo < r.lo
    ensures t.left.Node? ==> t.left.range in Inorder(t.left)
    ensures t.right.Node? ==> t.right.range in Inorder(t.right)
  {
    SortedParts(Inorder(t.left), t.range, Inorder(t.right));
  }

  lemma {:induction false} InsertOutcome(t: Tree, range: Range)
    requires Avl(t) && Sorted(Inorder(t))
    ensures match Insert(t, range)
      case None => Bare(t, range.lo)
      case Some(r) => Leans(t, r, range.lo)
  {
    if t.Node? {
      SortedChildren(t);
      if range.lo < t.range.lo {
        InsertOutcome(t.left, range);
        if Insert(t.left, range).Some? {
          LeansLeft(t, Insert(t.left, range).value, range.lo);
        }
      } else {
        InsertOutcome(t.right, range);
        if t.right.Node? {
          SortedChildren(t.right);
        }
        if Insert(t.right, range).Some? {
          LeansRight(t, Insert(t.right, range).value, range.lo);
        }
      }
    }
  }

  lemma {:induction false} BareMember(t: Tree, lo: nat)
    requires Bare(t, lo)
    ensures exists r :: r in Inorder(t) && r.lo == lo
  {
    if t.left.Leaf? && t.right.Node? && t.right.range.lo == lo && t.right.left.Leaf? && t.right.right.Leaf? {
      assert t.right.range in Inorder(t.right) && t.right.range in Inorder(t);
    } else if Bare(t.left, lo) {
      BareMember(t.left, lo);
      var r :| r in Inorder(t.left) && r.lo == lo;
      assert r in Inorder(t);
    } else {
      BareMember(t.right, lo);
      var r :| r in Inorder(t.right) && r.lo == lo;
      assert r in Inorder(t);
    }
  }

  lemma {:induction false} BareCrashes(t: Tree, range: Range)
    requires Avl(t) && Sorted(Inorder(t)) && Bare(t, range.lo)
    ensures Insert(t, range) == None
  {
    SortedChildren(t);
    if t.left.Leaf? && t.right.Node? && t.right.range.lo == range.lo && t.right.left.Leaf? && t.right.right.Leaf? {
      assert Insert(t.right.right, range) == Some(Node(range, Leaf, Leaf, 1));
    } else if Bare(t.left, range.lo) {
      BareMember(t.left, range.lo);
      BareCrashes(t.left, range);
    } else {
      BareMember(t.right, range.lo);
      BareCrashes(t.right, range);
    }
  }

  /** Exactly when an insertion into a balanced tree of distinct bounds dereferences a missing child. */
  lemma {:induction false} CrashesExactly(t: Tree, range: Range)
    requires Avl(t) && Sorted(Inorder(t))
    ensures Insert(t, range) == None <==> Bare(t, range.lo)
  {
    InsertOutcome(t, range);
    if Bare(t, range.lo) {
      BareCrashes(t, range);
    }
  }

  /** An equal lower bound is outside the contract: here the rebalancing dereferences a missing child. */
  lemma {:induction false} EqualLowerBoundsCrash(r: Range, a: Range, b: Range)
    requires r.lo < a.lo == b.lo
    ensures var one := Insert(Leaf, r); var two := Insert(one.value, a);
      one.Some? && two.Some? && Insert(two.value, b) == None
  {
    assert Insert(Leaf, r) == Some(Node(r, Leaf, Leaf, 1));
    var t := Node(r, Leaf, Node(a, Leaf, Leaf, 1), 2);
    assert Insert(Insert(Leaf, r).value, a) == Some(t);
    assert Insert(t.right, b) == Some(Node(a, Leaf, Node(b, Leaf, Leaf, 1), 2));
  }

  // ---- Whole runs -----------------------------------------------------------------------------------

  function InsertAll(rs: seq<Range>): Option<Tree> {
    if rs == [] then Some(Leaf)
    else
      match InsertAll(rs[..|rs| - 1])
      case None => None
      case Some(t) => Insert(t, rs[|rs| - 1])
  }

  ghost predicate NonEmpty(rs: seq<Range>) {
    forall i :: 0 <= i < |rs| ==> rs[i].lo < rs[i].hi
  }

  ghost predicate Apart(r: Range, s: Range) {
    r.hi <= s.lo || s.hi <= r.lo
  }

  ghost predicate PairwiseDisjoint(rs: seq<Range>) {
    forall i, j :: 0 <= i < j < |rs| ==> Apart(rs[i], rs[j])
  }

  /**
   After any insertions of pairwise disjoint, non-empty ranges the tree is balanced with exact
   heights, ordered by lower bound, and holds exactly the inserted ranges.
   */
  lemma {:induction false} RunIsAvl(rs: seq<Range>)
    requires NonEmpty(rs) && PairwiseDisjoint(rs)
    ensures InsertAll(rs).Some?
    ensures var t := InsertAll(rs).value;
      Avl(t) && Sorted(Inorder(t)) && multiset(Inorder(t)) == multiset(rs)
  {
    if rs != [] {
      var n := |rs| - 1;
      RunIsAvl(rs[..n]);
      var t := InsertAll(rs[..n]).value;
      assert multiset(rs) == multiset(rs[..n]) + multiset{rs[n]} by {
        assert rs == rs[..n] + [rs[n]];
      }
      NewLowerBound(rs, Inorder(t));
      InsertKeepsShape(t, rs[n]);
      InsertKeepsOrder(t, rs[n]);
      InsertSortedSorted(Inorder(t), rs[n]);
      InsertSortedContents(Inorder(t), rs[n]);
    }
  }

  lemma {:induction false} NewLowerBound(rs: seq<Range>, ss: seq<Range>)
    requires rs != [] && NonEmpty(rs) && PairwiseDisjoint(rs) && multiset(ss) == multiset(rs[..|rs| - 1])
    ensures NewLo(ss, rs[|rs| - 1].lo)
  {
    var n := |rs| - 1;
    forall x | x in ss ensures x.lo != rs[n].lo {
      assert x in multiset(ss) && x in rs[..n];
      var i :| 0 <= i < n && rs[i] == x;
      assert Apart(rs[i], rs[n]);
    }
  }

  // ---- Search ---------------------------------------------------------------------------------------

  predicate Within(r: Range, addr: nat) {
    r.lo <= addr < r.hi
  }

  /** The search finds the one range that contains the address, and fails exactly when none does. */
  lemma {:induction false} FindIsExact(t: Tree, addr: nat)
    requires Sorted(Inorder(t)) && PairwiseDisjoint(Inorder(t)) && NonEmpty(Inorder(t))
    ensures match Find(t, addr)
      case None => forall r :: r in Inorder(t) ==> !Within(r, addr)
      case Some(f) => f in Inorder(t) && Within(f, addr) && forall r :: r in Inorder(t) && Within(r, addr) ==> r == f
  {
    if t.Node? {
      var xs, ys, zs := Inorder(t.left), Inorder(t.right), Inorder(t);
      SortedParts(xs, t.range, ys);
      DisjointParts(xs, t.range, ys);
      FindIsExact(t.left, addr);
      FindIsExact(t.right, addr);
      assert t.range in zs;
    }
  }

  lemma {:induction false} DisjointParts(xs: seq<Range>, x: Range, ys: seq<Range>)
    requires PairwiseDisjoint(xs + [x] + ys) && NonEmpty(xs + [x] + ys) && Sorted(xs + [x] + ys)
    ensures PairwiseDisjoint(xs) && PairwiseDisjoint(ys) && NonEmpty(xs) && NonEmpty(ys) && x.lo < x.hi
    ensures (forall r :: r in xs ==> r.hi <= x.lo) && forall r :: r in ys ==> x.hi <= r.lo
  {
    var zs := xs + [x] + ys;
    assert zs[|xs|] == x;
    forall i | 0 <= i < |xs| ensures zs[i] == xs[i] && xs[i].hi <= x.lo {
      assert zs[i] == xs[i] && Apart(zs[i], zs[|xs|]);
    }
    forall i | 0 <= i < |ys| ensures zs[|xs| + 1 + i] == ys[i] && x.hi <= ys[i].lo {
      assert zs[|xs| + 1 + i] == ys[i] && Apart(zs[|xs|], zs[|xs| + 1 + i]);
    }
    forall i, j | 0 <= i < j < |xs| ensures Apart(xs[i], xs[j]) {
      assert Apart(zs[i], zs[j]);
    }
    forall i, j | 0 <= i < j < |ys| ensures Apart(ys[i], ys[j]) {
      assert Apart(zs[|xs| + 1 + i], zs[|xs| + 1 + j]);
    }
  }

  lemma {:induction false} VisitsAtMostHeight(t: Tree, addr: nat)
    requires Avl(t)
    ensures Visits(t, addr) <= Height(t)
  {
    if t.Node? {
      AvlHeights(t.left);
      AvlHeights(t.right);
      VisitsAtMostHeight(t.left, addr);
      VisitsAtMostHeight(t.right, addr);
    }
  }

  function Fib(n: nat): nat {
    if n < 2 then n else Fib(n - 1) + Fib(n - 2)
  }

  lemma {:induction false} FibMonotone(m: nat)
    ensures Fib(m) <= Fib(m + 1)
  {
    if m >= 1 {
      FibMonotone(m - 1);
    }
  }

  /** A tree of height h holds at least Fib(h + 2) - 1 ranges, so the height is logarithmic. */
  lemma {:induction false} FibonacciBound(t: Tree)
    requires Avl(t)
    ensures Height(t) >= 0 && |Inorder(t)| >= Fib(Height(t) + 2) - 1
  {
    AvlHeights(t);
    if t.Node? {
      AvlHeights(t.left);
      AvlHeights(t.right);
      FibonacciBound(t.left);
      FibonacciBound(t.right);
      var h := Height(t);
      FibMonotone(h);
      assert Fib(h + 2) == Fib(h + 1) + Fib(h);
    }
  }

  /** Looking up any address after a run of n insertions visits h nodes with Fib(h + 2) - 1 <= n. */
  lemma {:induction false} SearchAfterRun(rs: seq<Range>, addr: nat)
    requires NonEmpty(rs) && PairwiseDisjoint(rs)
    ensures InsertAll(rs).Some?
    ensures var t := InsertAll(rs).value;
      && Fib(Visits(t, addr) + 2) - 1 <= |rs|
      && match Find(t, addr)
         case None => forall r :: r in rs ==> !Within(r, addr)
         case Some(f) => f in rs && Within(f, addr) && forall r :: r in rs && Within(r, addr) ==> r == f
  {
    RunIsAvl(rs);
    var t := InsertAll(rs).value;
    FibonacciBound(t);
    VisitsAtMostHeight(t, addr);
    FibGrows(Visits(t, addr) + 2, Height(t) + 2);
    assert |Inorder(t)| == |multiset(rs)| == |rs|;
    forall r ensures r in rs <==> r in Inorder(t) {
      assert r in rs <==> r in multiset(rs);
    }
    PermutedDisjoint(rs, Inorder(t));
    FindIsExact(t, addr);
  }

  lemma {:induction false} FibGrows(m: nat, n: nat)
    requires m <= n
    ensures Fib(m) <= Fib(n)
    decreases n
  {
    if m < n {
      FibGrows(m, n - 1);
      FibMonotone(n - 1);
    }
  }

  lemma {:induction false} PermutedDisjoint(rs: seq<Range>, ss: seq<Range>)
    requires NonEmpty(rs) && PairwiseDisjoint(rs) && Sorted(ss)
    requires forall r :: r in ss ==> r in rs
    ensures NonEmpty(ss) && PairwiseDisjoint(ss)
  {
    forall i | 0 <= i < |ss| ensures ss[i].lo < ss[i].hi {
      assert ss[i] in rs;
    }
    forall i, j | 0 <= i < j < |ss| ensures Apart(ss[i], ss[j]) {
      assert ss[i] in rs && ss[j] in rs;
      var k :| 0 <= k < |rs| && rs[k] == ss[i];
      var l :| 0 <= l < |rs| && rs[l] == ss[j];
      assert if k < l then Apart(rs[k], rs[l]) else Apart(rs[l], rs[k]);
    }
  }
}
