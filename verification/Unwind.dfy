/** The Python stack of src/stack.h and the frame-object unwinding of src/py_thread.c. */
module Stacks {
  import opened Common

  /** What is kept of a remote frame object. */
  datatype RemoteFrame = RemoteFrame(back: Key, code: Key, lasti: CInt)

  datatype PyFrame = PyFrame(origin: Key, code: Key, lasti: CInt)

  /** The readable frame objects of the remote process; nothing can be read at NULL. */
  type Memory = mem: map<Key, RemoteFrame> | 0 !in mem

  // ---- The back-chain -------------------------------------------------------------------------------

  /** The address reached from `top` after following `n` back pointers, if every frame on the way is readable. */
  function Nth(mem: Memory, top: Key, n: nat): Option<Key> {
    if n == 0 then Some(top)
    else
      match Nth(mem, top, n - 1)
      case None => None
      case Some(a) => if a in mem then Some(mem[a].back) else None
  }

  /** The first `n` frames of the back-chain. */
  function Walk(mem: Memory, top: Key, n: nat): (fs: seq<PyFrame>)
    requires Nth(mem, top, n).Some?
    ensures |fs| == n
  {
    if n == 0 then []
    else
      var a := Nth(mem, top, n - 1).value;
      Walk(mem, top, n - 1) + [PyFrame(a, mem[a].code, mem[a].lasti)]
  }

  /** The back-chain reaches NULL after exactly `n` frames. */
  ghost predicate EndsAfter(mem: Memory, top: Key, n: nat) {
    n > 0 && Nth(mem, top, n) == Some(0)
  }

  /** The back-chain reaches NULL in fewer than `size` readable frames. */
  ghost predicate Unwinds(mem: Memory, top: Key, size: nat) {
    exists n: nat :: n < size && EndsAfter(mem, top, n)
  }

  lemma {:induction false} NthReadable(mem: Memory, top: Key, m: nat, n: nat)
    requires m < n && Nth(mem, top, n).Some?
    ensures Nth(mem, top, m).Some? && Nth(mem, top, m).value in mem
  {
    if m < n - 1 {
      NthReadable(mem, top, m, n - 1);
    }
  }

  lemma {:induction false} NthShift(mem: Memory, top: Key, i: nat, j: nat, k: nat)
    requires Nth(mem, top, i) == Nth(mem, top, j)
    ensures Nth(mem, top, i + k) == Nth(mem, top, j + k)
  {
    if k > 0 {
      NthShift(mem, top, i, j, k - 1);
      assert Nth(mem, top, i + k - 1) == Nth(mem, top, j + k - 1);
    }
  }

  /** A chain that ends visits no address twice. */
  lemma {:induction false} EndingChainIsSimple(mem: Memory, top: Key, i: nat, j: nat, n: nat)
    requires EndsAfter(mem, top, n) && i < j <= n
    ensures Nth(mem, top, i) != Nth(mem, top, j)
  {
    if Nth(mem, top, i) == Nth(mem, top, j) {
      NthShift(mem, top, i, j, n - j);
      assert Nth(mem, top, i + (n - j)) == Some(0);
      NthReadable(mem, top, i + (n - j), n);
      assert false;
    }
  }

  lemma {:induction false} WalkNone(mem: Memory, top: Key)
    ensures Walk(mem, top, 0) == []
  {
  }

  lemma {:induction false} WalkOneMore(mem: Memory, top: Key, n: nat)
    requires Nth(mem, top, n).Some?
    ensures var a := Nth(mem, top, n).value;
      a in mem ==> Nth(mem, top, n + 1) == Some(mem[a].back) &&
                   Walk(mem, top, n + 1) == Walk(mem, top, n) + [PyFrame(a, mem[a].code, mem[a].lasti)]
  {
  }

  lemma {:induction false} WalkOrigin(mem: Memory, top: Key, n: nat, i: nat)
    requires Nth(mem, top, n).Some? && i < n
    ensures Some(Walk(mem, top, n)[i].origin) == Nth(mem, top, i)
  {
    if i < n - 1 {
      WalkOrigin(mem, top, n - 1, i);
    }
  }

  lemma {:induction false} WalkDistinct(mem: Memory, top: Key, n: nat)
    requires EndsAfter(mem, top, n)
    ensures DistinctOrigins(Walk(mem, top, n))
  {
    var fs := Walk(mem, top, n);
    forall i, j | 0 <= i < j < |fs| ensures fs[i].origin != fs[j].origin {
      WalkOrigin(mem, top, n, i);
      WalkOrigin(mem, top, n, j);
      EndingChainIsSimple(mem, top, i, j, n);
    }
  }

  ghost predicate DistinctOrigins(fs: seq<PyFrame>) {
    forall i, j :: 0 <= i < j < |fs| ==> fs[i].origin != fs[j].origin
  }

  /** The frame on top was seen before. */
  ghost predicate Cyclic(fs: seq<PyFrame>) {
    exists i :: 0 <= i < |fs| - 1 && fs[i].origin == fs[|fs| - 1].origin
  }

  /** Why unwinding gives up after `n` frames. */
  ghost predicate GivesUp(mem: Memory, top: Key, n: nat, size: nat)
    requires Nth(mem, top, n).Some?
  {
    var next := Nth(mem, top, n).value;
    || (next !in mem && (next != 0 || n == 0))
    || (next in mem && mem[next].back == next)
    || n >= size
    || Cyclic(Walk(mem, top, n))
  }

  /** The loop of unwinding: how many frames it keeps, and whether it calls them invalid. */
  ghost function Climb(mem: Memory, top: Key, n: nat, size: nat): (r: (nat, bool))
    requires Nth(mem, top, n).Some?
    ensures Nth(mem, top, r.0).Some? && n <= r.0
    ensures n <= size ==> r.0 <= size
    ensures r.1 <==> GivesUp(mem, top, r.0, size)
    ensures !r.1 ==> Nth(mem, top, r.0) == Some(0)
    decreases size - n
  {
    if GivesUp(mem, top, n, size) then (n, true)
    else if Nth(mem, top, n) == Some(0) then (n, false)
    else Climb(mem, top, n + 1, size)
  }

  /** Where it gives up, the chain does not end in fewer than `size` frames. */
  lemma {:induction false} GivingUpIsRight(mem: Memory, top: Key, n: nat, size: nat)
    requires Nth(mem, top, n).Some? && GivesUp(mem, top, n, size)
    ensures !Unwinds(mem, top, size)
  {
    if m: nat :| m < size && EndsAfter(mem, top, m) {
      var next := Nth(mem, top, n).value;
      if m < n {
        NthReadable(mem, top, m, n);
      } else if Cyclic(Walk(mem, top, n)) {
        var i :| 0 <= i < n - 1 && Walk(mem, top, n)[i].origin == Walk(mem, top, n)[n - 1].origin;
        WalkOrigin(mem, top, n, i);
        WalkOrigin(mem, top, n, n - 1);
        EndingChainIsSimple(mem, top, i, n - 1, m);
      } else if next !in mem {
        if m > n {
          NthReadable(mem, top, n, m);
        }
      } else {
        assert Nth(mem, top, n + 1) == Nth(mem, top, n);
        assert m > n;
        EndingChainIsSimple(mem, top, n, n + 1, m);
      }
      assert false;
    }
  }

  /** Unwinding is right to call a stack valid, and right to call it invalid. */
  lemma {:induction false} ClimbIsRight(mem: Memory, top: Key, size: nat)
    ensures var (n, invalid) := Climb(mem, top, 0, size);
      && (invalid <==> !Unwinds(mem, top, size))
      && (!invalid ==> n < size && EndsAfter(mem, top, n) && DistinctOrigins(Walk(mem, top, n)))
  {
    var (n, invalid) := Climb(mem, top, 0, size);
    if invalid {
      GivingUpIsRight(mem, top, n, size);
    } else {
      assert n > 0;
      assert EndsAfter(mem, top, n);
      WalkDistinct(mem, top, n);
    }
  }

  // ---- What is kept, frame by frame -------------------------------------------------------------------

  /** No frame can be taken from here: it cannot be read, or its back pointer is to itself. */
  ghost predicate Blocked(mem: Memory, next: Key) {
    next !in mem || mem[next].back == next
  }

  /**
   The frames from `top` on that unwinding into 2048 slots keeps, and whether it is bad: it goes on until the
   chain ends, which is good, or until a frame cannot be taken, an address comes up again or the slots are full.
   */
  ghost predicate ChainOf(mem: Memory, top: Key, fs: seq<PyFrame>, bad: bool) {
    && Nth(mem, top, |fs|).Some? && fs == Walk(mem, top, |fs|) && |fs| <= 2048
    && (forall i :: 0 <= i < |fs| ==> !Blocked(mem, fs[i].origin))
    && (forall i, j :: 0 <= i < j < |fs| - 1 ==> fs[i].origin != fs[j].origin)
    && (!bad <==> Unwinds(mem, top, 2048))
    && var next := Nth(mem, top, |fs|).value;
       if bad then |fs| == 2048 || Cyclic(fs) || (Blocked(mem, next) && (next != 0 || fs == []))
       else next == 0 && fs != []
  }

  lemma {:induction false} KeptSoFar(mem: Memory, top: Key, n: nat, size: nat)
    requires Nth(mem, top, n).Some? && forall m :: 0 <= m < n ==> Nth(mem, top, m).Some? && !GivesUp(mem, top, m, size)
    ensures var r := Climb(mem, top, n, size).0;
      forall m :: 0 <= m < r ==> Nth(mem, top, m).Some? && !GivesUp(mem, top, m, size)
    decreases size - n
  {
    if !GivesUp(mem, top, n, size) && Nth(mem, top, n) != Some(0) {
      KeptSoFar(mem, top, n + 1, size);
    }
  }

  lemma {:induction false} WalkPrefix(mem: Memory, top: Key, m: nat, n: nat)
    requires m <= n && Nth(mem, top, n).Some?
    ensures Nth(mem, top, m).Some? && Walk(mem, top, m) == Walk(mem, top, n)[..m]
  {
    if m < n {
      WalkPrefix(mem, top, m, n - 1);
    }
  }

  /** The loop keeps exactly these frames. */
  lemma {:induction false} ClimbKeepsChain(mem: Memory, top: Key)
    ensures var (n, bad) := Climb(mem, top, 0, 2048);
      ChainOf(mem, top, Walk(mem, top, n), bad)
  {
    hide Unwinds, GivesUp;
    var (n, bad) := Climb(mem, top, 0, 2048);
    var fs := Walk(mem, top, n);
    ClimbIsRight(mem, top, 2048);
    KeptSoFar(mem, top, 0, 2048);
    forall i | 0 <= i < n ensures !Blocked(mem, fs[i].origin) {
      WalkOrigin(mem, top, n, i);
      NthReadable(mem, top, i, n);
      NotBlocked(mem, top, i, 2048);
    }
    forall i, j | 0 <= i < j < n - 1 ensures fs[i].origin != fs[j].origin {
      WalkPrefix(mem, top, j + 1, n);
      NotCyclic(mem, top, j + 1, 2048, i);
    }
    if bad {
      WhyGivenUp(mem, top, n, 2048);
    } else {
      assert n > 0 by { ValidIsNotEmpty(mem, top, n); }
    }
  }

  lemma {:induction false} NotBlocked(mem: Memory, top: Key, n: nat, size: nat)
    requires Nth(mem, top, n).Some? && !GivesUp(mem, top, n, size) && Nth(mem, top, n).value in mem
    ensures !Blocked(mem, Nth(mem, top, n).value)
  {
  }

  lemma {:induction false} NotCyclic(mem: Memory, top: Key, n: nat, size: nat, i: nat)
    requires Nth(mem, top, n).Some? && !GivesUp(mem, top, n, size) && i < n - 1
    ensures Walk(mem, top, n)[i].origin != Walk(mem, top, n)[n - 1].origin
  {
  }

  lemma {:induction false} WhyGivenUp(mem: Memory, top: Key, n: nat, size: nat)
    requires Nth(mem, top, n).Some? && GivesUp(mem, top, n, size) && n <= size
    ensures var fs, next := Walk(mem, top, n), Nth(mem, top, n).value;
      n == size || Cyclic(fs) || (Blocked(mem, next) && (next != 0 || fs == []))
  {
  }

  lemma {:induction false} ValidIsNotEmpty(mem: Memory, top: Key, n: nat)
    requires EndsAfter(mem, top, n)
    ensures n > 0
  {
  }

  /** There is one way to do so. */
  lemma {:induction false} ChainIsOne(mem: Memory, top: Key, fs: seq<PyFrame>, bad: bool, gs: seq<PyFrame>, worse: bool)
    requires ChainOf(mem, top, fs, bad) && ChainOf(mem, top, gs, worse)
    ensures fs == gs && bad == worse
  {
    hide Unwinds;
    if |fs| < |gs| {
      ChainNotShorter(mem, top, fs, bad, gs, worse);
    } else if |gs| < |fs| {
      ChainNotShorter(mem, top, gs, worse, fs, bad);
    }
  }

  lemma {:induction false} ChainNotShorter(mem: Memory, top: Key, fs: seq<PyFrame>, bad: bool, gs: seq<PyFrame>,
          worse: bool)
    requires ChainOf(mem, top, fs, bad) && ChainOf(mem, top, gs, worse)
    ensures |fs| >= |gs|
  {
    hide Unwinds;
    var n := |fs|;
    if n < |gs| {
      WalkPrefix(mem, top, n, |gs|);
      WalkOrigin(mem, top, |gs|, n);
      assert !Blocked(mem, gs[n].origin);
      assert forall i :: 0 <= i < n ==> fs[i] == gs[i];
    }
  }

  // ---- The stack ------------------------------------------------------------------------------------

  /** The stack of frames being unwound and, slot by slot, what they resolve to. */
  class PyStack<F> {
    const size: nat
    const base: array<Option<F>>
    const pyBase: array<PyFrame>
    var pointer: nat

    ghost predicate Valid()
      reads this
    {
      base.Length == size && pyBase.Length == size && pointer <= size
    }

    ghost function Frames(): (fs: seq<PyFrame>)
      requires Valid()
      reads this, pyBase
      ensures |fs| == pointer
    {
      pyBase[..pointer]
    }

    constructor (size: nat)
      ensures Valid() && this.size == size && pointer == 0 && fresh(base) && fresh(pyBase)
    {
      this.size, pointer := size, 0;
      base := new Option<F>[size](_ => None);
      pyBase := new PyFrame[size](_ => PyFrame(0, 0, 0));
    }

    method Reset()
      requires Valid()
      modifies `pointer
      ensures Valid() && Frames() == []
    {
      pointer := 0;
    }

    method PyPush(origin: Key, code: Key, lasti: CInt)
      requires Valid() && pointer < size
      modifies `pointer, pyBase
      ensures Valid() && Frames() == old(Frames()) + [PyFrame(origin, code, lasti)]
    {
      pyBase[pointer] := PyFrame(origin, code, lasti);
      pointer := pointer + 1;
    }

    method IsFull() returns (full: bool)
      requires Valid()
      ensures full <==> pointer == size
    {
      full := pointer >= size;
    }

    method HasCycle() returns (found: bool)
      requires Valid()
      ensures found <==> Cyclic(Frames())
    {
      if pointer < 2 {
        return false;
      }
      var top := pyBase[pointer - 1];
      var i := pointer - 2;
      while i >= 0
        invariant -1 <= i <= pointer - 2
        invariant forall j :: i < j < pointer - 1 ==> pyBase[j].origin != top.origin
      {
        if top.origin == pyBase[i].origin {
          assert Frames()[i].origin == Frames()[pointer - 1].origin;
          return true;
        }
        i := i - 1;
      }
      found := false;
      assert forall j :: 0 <= j < pointer - 1 ==> Frames()[j].origin == pyBase[j].origin;
    }

    /** Push the frame object at `prev` and step to the one behind it. */
    method PushFrame(mem: Memory, prev: Key) returns (ok: bool, next: Key)
      requires Valid() && pointer < size
      modifies `pointer, pyBase
      ensures Valid() && (ok <==> prev in mem && mem[prev].back != prev)
      ensures ok ==> next == mem[prev].back && Frames() == old(Frames()) + [PyFrame(prev, mem[prev].code,
        mem[prev].lasti)]
      ensures !ok ==> Frames() == old(Frames())
    {
      if prev !in mem {
        return false, prev;
      }
      var origin := prev;
      next := mem[prev].back;
      if origin == next {
        return false, next;
      }
      PyPush(origin, mem[prev].code, mem[prev].lasti);
      ok := true;
    }

    /**
     The stack is valid exactly when the back-chain ends in fewer than `size` readable frames, and then
     it is that chain.  Otherwise it holds the chain up to where it was given up.
     */
    method UnwindFrameStack(mem: Memory, top: Key) returns (invalid: bool)
      requires Valid() && size >= 2
      modifies `pointer, pyBase
      ensures Valid()
      ensures Nth(mem, top, pointer).Some? && Frames() == Walk(mem, top, pointer)
      ensures !invalid <==> Unwinds(mem, top, size)
      ensures !invalid ==> pointer < size && EndsAfter(mem, top, pointer) && DistinctOrigins(Frames())
      ensures invalid ==> GivesUp(mem, top, pointer, size)
      ensures Climb(mem, top, 0, size) == (pointer, invalid)
    {
      hide Unwinds, EndsAfter, DistinctOrigins, Walk;
      ClimbIsRight(mem, top, size);
      WalkNone(mem, top);
      Reset();
      var ok, prev := PushFrame(mem, top);
      if !ok {
        return true;
      }
      invalid := false;
      WalkOneMore(mem, top, 0);
      while prev != 0
        invariant Valid() && 0 < pointer < size && !invalid && !Cyclic(Frames())
        invariant Nth(mem, top, pointer) == Some(prev) && Frames() == Walk(mem, top, pointer)
        invariant Climb(mem, top, 0, size) == Climb(mem, top, pointer, size)
        decreases size - pointer
      {
        WalkOneMore(mem, top, pointer);
        ok, prev := PushFrame(mem, prev);
        if !ok {
          invalid := true;
          break;
        }
        var full := IsFull();
        if full {
          invalid := true;
          break;
        }
        var cycle := HasCycle();
        if cycle {
          invalid := true;
          break;
        }
      }
    }

    /** The loop over the interpreter frames of 3.11, which starts at a frame that may be NULL. */
    method UnwindIframeStack(mem: Memory, top: Key) returns (invalid: bool)
      requires Valid() && size > 0
      modifies `pointer, pyBase
      ensures Valid()
      ensures Nth(mem, top, pointer).Some? && Frames() == Walk(mem, top, pointer)
      ensures !invalid <==> top == 0 || Unwinds(mem, top, size)
      ensures !invalid ==> pointer < size && Nth(mem, top, pointer) == Some(0) && DistinctOrigins(Frames())
      ensures invalid ==> GivesUp(mem, top, pointer, size)
      ensures (if top == 0 then (0, false) else Climb(mem, top, 0, size)) == (pointer, invalid)
    {
      Reset();
      var curr := top;
      invalid := false;
      while curr != 0
        invariant Valid() && pointer < size && !invalid && (top == 0 ==> curr == 0) && !Cyclic(Frames())
        invariant Nth(mem, top, pointer) == Some(curr) && Frames() == Walk(mem, top, pointer)
        invariant Climb(mem, top, 0, size) == Climb(mem, top, pointer, size)
        decreases size - pointer
      {
        var ok;
        ok, curr := PushFrame(mem, curr);
        if !ok {
          invalid := true;
          break;
        }
        var full := IsFull();
        if full {
          invalid := true;
          break;
        }
        var cycle := HasCycle();
        if cycle {
          invalid := true;
          break;
        }
      }
      if invalid {
        GivingUpIsRight(mem, top, pointer, size);
      } else if pointer > 0 {
        assert EndsAfter(mem, top, pointer);
        WalkDistinct(mem, top, pointer);
      }
    }

    method Set(i: nat, frame: F)
      requires Valid() && i < size
      modifies base
      ensures base[..] == old(base[..])[i := Some(frame)]
    {
      base[i] := Some(frame);
    }

    /** Keep the first `n` frames. */
    method Truncate(n: nat)
      requires Valid() && n <= pointer
      modifies `pointer
      ensures Valid() && Frames() == old(Frames())[..n]
    {
      pointer := n;
    }

    method Pop() returns (frame: Option<F>)
      requires Valid() && pointer > 0
      modifies `pointer
      ensures Valid() && pointer == old(pointer) - 1 && frame == base[pointer]
    {
      pointer := pointer - 1;
      frame := base[pointer];
    }
  }
}
