/** The VM range tree of src/linux/vm-range-tree.h on the heap, proved against `RangeModel`. */
module RangeTrees {
  import opened Common
  import opened RangeModel

  class VmRange {
    var range: Range
    var left: VmRange?
    var right: VmRange?
    var height: int
    ghost var tree: Tree
    ghost var Repr: set<object>

    ghost predicate Valid()
      reads this, Repr
      ensures Valid() ==> this in Repr && tree.Node? && tree.range == range
      decreases Repr
    {
      && this in Repr
      && (left != null ==> left in Repr && left.Repr <= Repr && this !in left.Repr && left.Valid())
      && (right != null ==> right in Repr && right.Repr <= Repr && this !in right.Repr && right.Valid())
      && (left != null && right != null ==> left.Repr !! right.Repr)
      && tree == Node(range, TreeOf(left), TreeOf(right), height)
    }

    constructor (lo: nat, hi: nat, name: string)
      ensures Valid() && fresh(Repr) && Repr == {this} && range == Range(lo, hi, name)
      ensures tree == Node(range, Leaf, Leaf, 1)
    {
      range := Range(lo, hi, name);
      left, right, height := null, null, 1;
      tree := Node(Range(lo, hi, name), Leaf, Leaf, 1);
      Repr := {this};
    }

    /** Extend a range that is not linked into a tree yet. */
    method ExtendTo(hi: nat)
      requires Valid() && tree == Node(range, Leaf, Leaf, 1)
      modifies this
      ensures Valid() && range == old(range).(hi := hi) && tree == Node(range, Leaf, Leaf, 1) && Repr == old(Repr)
    {
      range := range.(hi := hi);
      tree := Node(range, Leaf, Leaf, 1);
    }

    /** Recompute the height, and with it the ghost view, from the children. */
    method Update()
      requires left != null ==> left.Valid() && this !in left.Repr
      requires right != null ==> right.Valid() && this !in right.Repr
      requires left != null && right != null ==> left.Repr !! right.Repr
      modifies this
      ensures Valid() && left == old(left) && right == old(right) && range == old(range)
      ensures tree == Join(range, TreeOf(left), TreeOf(right))
      ensures Repr == {this} + ReprOf(left) + ReprOf(right)
    {
      height := Max(HeightOf(left), HeightOf(right)) + 1;
      tree := Join(range, TreeOf(left), TreeOf(right));
      Repr := {this} + ReprOf(left) + ReprOf(right);
    }

    /** Bring the ghost view up to date with a rotated child; the stored height stays. */
    ghost method Retie()
      requires left != null ==> left.Valid() && this !in left.Repr
      requires right != null ==> right.Valid() && this !in right.Repr
      requires left != null && right != null ==> left.Repr !! right.Repr
      modifies `tree, `Repr
      ensures Valid() && tree == Node(range, TreeOf(left), TreeOf(right), height)
      ensures Repr == {this} + ReprOf(left) + ReprOf(right)
    {
      tree := Node(range, TreeOf(left), TreeOf(right), height);
      Repr := {this} + ReprOf(left) + ReprOf(right);
    }

    method RotateRight() returns (x: VmRange)
      requires Valid() && left != null
      modifies Repr
      ensures x.Valid() && x.Repr <= old(Repr)
      ensures Some(x.tree) == RangeModel.RotateRight(old(tree))
    {
      x := left;
      left := x.right;
      Update();
      x.right := this;
      x.Update();
    }

    method RotateLeft() returns (y: VmRange)
      requires Valid() && right != null
      modifies Repr
      ensures y.Valid() && y.Repr <= old(Repr)
      ensures Some(y.tree) == RangeModel.RotateLeft(old(tree))
    {
      y := right;
      right := y.left;
      Update();
      y.left := this;
      y.Update();
    }
  }

  /** The balancing that follows an insertion below `self`. */
  method Rebalance(self: VmRange, lo: nat) returns (r: VmRange)
    requires self.Valid() && RangeModel.Rebalance(self.tree, lo).Some?
    modifies self.Repr
    ensures r.Valid() && r.Repr <= old(self.Repr)
    ensures Some(r.tree) == RangeModel.Rebalance(old(self.tree), lo)
  {
    var balance := HeightOf(self.left) - HeightOf(self.right);
    if balance > 1 {
      if lo >= self.left.range.lo {
        self.left := self.left.RotateLeft();
        self.Retie();
      }
      r := self.RotateRight();
    } else if balance < -1 {
      if lo <= self.right.range.lo {
        self.right := self.right.RotateRight();
        self.Retie();
      }
      r := self.RotateLeft();
    } else {
      r := self;
    }
  }

  /** Link `node` into the tree at `self`; the result is the new root. */
  method AddBelow(self: VmRange?, node: VmRange) returns (r: VmRange)
    requires self != null ==> self.Valid()
    requires node.Valid() && node.tree == Node(node.range, Leaf, Leaf, 1) && node.Repr !! ReprOf(self)
    requires Insert(TreeOf(self), node.range).Some?
    modifies ReprOf(self), node.Repr
    ensures r.Valid() && r.Repr <= old(ReprOf(self) + node.Repr)
    ensures Some(r.tree) == Insert(old(TreeOf(self)), old(node.range))
    decreases ReprOf(self)
  {
    if self == null {
      return node;
    }
    var lo := node.range.lo;
    if lo < self.range.lo {
      self.left := AddBelow(self.left, node);
    } else {
      self.right := AddBelow(self.right, node);
    }
    self.Update();
    r := Rebalance(self, lo);
  }

  ghost function TreeOf(node: VmRange?): Tree
    reads node
  {
    if node == null then Leaf else node.tree
  }

  ghost function ReprOf(node: VmRange?): set<object>
    reads node
  {
    if node == null then {} else node.Repr
  }

  function HeightOf(node: VmRange?): int
    reads node
  {
    if node == null then 0 else node.height
  }

  method FindNode(self: VmRange?, addr: nat) returns (r: VmRange?)
    requires self != null ==> self.Valid()
    ensures r == null <==> Find(TreeOf(self), addr) == None
    ensures r != null ==> r in ReprOf(self) && Find(TreeOf(self), addr) == Some(r.range)
    decreases ReprOf(self)
  {
    if self == null {
      return null;
    }
    if addr >= self.range.lo && addr < self.range.hi {
      return self;
    }
    r := FindNode(if addr < self.range.lo then self.left else self.right, addr);
  }

  class VmRangeTree {
    var root: VmRange?
    ghost var inserted: seq<Range>
    ghost var Repr: set<object>

    ghost predicate Valid()
      reads this, Repr
      ensures Valid() ==> this in Repr
    {
      && this in Repr && (root != null ==> root in Repr && root.Repr <= Repr && this !in root.Repr && root.Valid())
      && NonEmpty(inserted) && PairwiseDisjoint(inserted)
      && InsertAll(inserted) == Some(TreeOf(root))
    }

    constructor ()
      ensures Valid() && fresh(Repr) && inserted == []
    {
      root, inserted, Repr := null, [], {this};
    }

    /** The caller sees to it that the ranges do not overlap. */
    method Add(node: VmRange)
      requires Valid() && node.Valid() && node.tree == Node(node.range, Leaf, Leaf, 1) && node.Repr !! Repr
      requires NonEmpty(inserted + [node.range]) && PairwiseDisjoint(inserted + [node.range])
      modifies Repr, node.Repr
      ensures Valid() && Repr == old(Repr) + old(node.Repr) && inserted == old(inserted) + [old(node.range)]
    {
      hide NonEmpty, PairwiseDisjoint, Sorted, Avl, Inorder;
      ghost var rs := inserted + [node.range];
      RunIsAvl(rs);
      assert rs[..|rs| - 1] == inserted;
      Repr := Repr + node.Repr;
      root := AddBelow(root, node);
      inserted := rs;
    }

    /** The node whose range contains the address, or null exactly when no inserted range does. */
    method Find(addr: nat) returns (r: VmRange?)
      requires Valid()
      ensures r == null <==> forall s :: s in inserted ==> !Within(s, addr)
      ensures r != null ==> r in Repr && r.range in inserted && Within(r.range, addr)
    {
      SearchAfterRun(inserted, addr);
      r := FindNode(root, addr);
    }
  }
}
