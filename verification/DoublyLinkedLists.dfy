/** Doubly linked lists on the heap: the structure shared by the recency queue and the process list. */
module DoublyLinkedLists {
  class Item<T> {
    var prev: Item?<T>
    var next: Item?<T>
    const content: T

    constructor (content: T)
      ensures this.content == content && prev == null && next == null
    {
      this.content, prev, next := content, null, null;
    }
  }

  /** The items, from the first to the last, are doubly linked. */
  ghost predicate DoublyLinked<T>(items: seq<Item<T>>)
    reads set x | x in items
  {
    && (forall i, j :: 0 <= i < j < |items| ==> items[i] != items[j])
    && NextLinked(items) && PrevLinked(items)
  }

  ghost predicate NextLinked<T>(items: seq<Item<T>>)
    reads set x | x in items
  {
    forall i {:trigger items[i].next} :: 0 <= i < |items| ==> items[i].next == At(items, i + 1)
  }

  ghost predicate PrevLinked<T>(items: seq<Item<T>>)
    reads set x | x in items
  {
    forall i {:trigger items[i].prev} :: 0 <= i < |items| ==> items[i].prev == At(items, i - 1)
  }

  ghost function At<T>(items: seq<Item<T>>, i: int): Item?<T> {
    if 0 <= i < |items| then items[i] else null
  }

  lemma {:induction false} AtIs<T>(xs: seq<Item<T>>, i: nat)
    ensures if i < |xs| then At(xs, i) == xs[i] else At(xs, i) == null
  {
  }

  lemma {:induction false} AtIndex<T>(xs: seq<Item<T>>, i: nat)
    requires i < |xs|
    ensures At(xs, i) == xs[i]
  {
  }

  lemma {:induction false} AtCons<T>(x: Item<T>, xs: seq<Item<T>>)
    ensures forall i :: At([x] + xs, i) == if i == 0 then x else At(xs, i - 1)
  {
  }

  lemma {:induction false} AtDropLast<T>(xs: seq<Item<T>>)
    requires xs != []
    ensures forall i :: At(xs[..|xs| - 1], i) == if i == |xs| - 1 then null else At(xs, i)
  {
    forall i ensures At(xs[..|xs| - 1], i) == if i == |xs| - 1 then null else At(xs, i) {
    }
  }

  /** The list without its k-th item. */
  ghost function Removed<T>(xs: seq<T>, k: nat): (ys: seq<T>)
    requires k < |xs|
    ensures |ys| == |xs| - 1
    ensures forall i :: 0 <= i < |ys| ==> ys[i] == if i < k then xs[i] else xs[i + 1]
  {
    xs[..k] + xs[k + 1..]
  }

  lemma {:induction false} RemovedMembers<T>(xs: seq<T>, k: nat)
    requires k < |xs| && forall i, j :: 0 <= i < j < |xs| ==> xs[i] != xs[j]
    ensures forall x :: x in Removed(xs, k) <==> x in xs && x != xs[k]
  {
    forall x | x in xs && x != xs[k] ensures x in Removed(xs, k) {
      var i :| 0 <= i < |xs| && xs[i] == x;
      assert Removed(xs, k)[if i < k then i else i - 1] == x;
    }
  }

  lemma {:induction false} LinksOf<T>(xs: seq<Item<T>>, k: nat)
    requires DoublyLinked(xs) && k < |xs|
    ensures xs[k].prev == At(xs, k - 1) && xs[k].next == At(xs, k + 1)
    ensures (xs[k] == xs[0] <==> k == 0) && (xs[k] == xs[|xs| - 1] <==> k == |xs| - 1)
  {
  }

  lemma {:induction false} FirstOfRemoved<T>(xs: seq<Item<T>>, k: nat)
    requires k < |xs|
    ensures At(Removed(xs, k), 0) == if k == 0 then At(xs, 1) else At(xs, 0)
    ensures forall x :: x in Removed(xs, k) ==> x in xs
  {
  }

  /** Link a loose item in front of the first one. */
  method PushFront<T>(item: Item<T>, first: Item?<T>, ghost xs: seq<Item<T>>)
    requires DoublyLinked(xs) && first == At(xs, 0) && item !in xs
    modifies item, set x | x in xs
    ensures DoublyLinked([item] + xs)
  {
    ghost var ys := [item] + xs;
    AtCons(item, xs);
    item.next := first;
    item.prev := null;
    if first != null {
      first.prev := item;
    }
    forall j | 0 <= j < |ys| ensures ys[j].next == At(ys, j + 1) && ys[j].prev == At(ys, j - 1) {
      assert j > 0 ==> ys[j] == xs[j - 1];
    }
  }

  /** Take an item out of the list. */
  method Unlink<T>(item: Item<T>, ghost xs: seq<Item<T>>, ghost k: nat)
    requires DoublyLinked(xs) && k < |xs| && xs[k] == item
    modifies set x | x in xs
    ensures DoublyLinked(Removed(xs, k)) && item !in Removed(xs, k)
    ensures item.next == old(item.next) && item.prev == old(item.prev)
  {
    ghost var ys := Removed(xs, k);
    if item.prev != null {
      item.prev.next := item.next;
    }
    assert NextLinked(ys) by {
      forall j | 0 <= j < |ys| ensures ys[j].next == At(ys, j + 1) {
        assert ys[j] == xs[if j < k then j else j + 1];
      }
    }
    if item.next != null {
      item.next.prev := item.prev;
    }
    assert PrevLinked(ys) by {
      forall j | 0 <= j < |ys| ensures ys[j].prev == At(ys, j - 1) {
        assert ys[j] == xs[if j < k then j else j + 1];
      }
    }
  }

  /** Cut the last item off; `rear` is the one before it. */
  method CutLast<T>(rear: Item?<T>, ghost xs: seq<Item<T>>)
    requires DoublyLinked(xs) && xs != [] && rear == At(xs, |xs| - 2)
    modifies set x | x in xs
    ensures DoublyLinked(xs[..|xs| - 1])
  {
    ghost var ys := xs[..|xs| - 1];
    AtDropLast(xs);
    if rear != null {
      rear.next := null;
    }
    forall j | 0 <= j < |ys| ensures ys[j].next == At(ys, j + 1) && ys[j].prev == At(ys, j - 1) {
      assert ys[j] == xs[j];
    }
  }
}
