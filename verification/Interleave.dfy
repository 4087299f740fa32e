/** Merging the native and the Python stack, as src/py_thread.c does when it emits a sample. */
module Interleaving {
  import opened Common
  import opened LruCaches
  import L = LruModel
  import M = MojoModel

  /** A slot of the resolved Python stack: a frame, or the marker between two stretches of it. */
  datatype Slot<F> = Marker | Held(frame: F)

  /** A frame of the native stack, with the address its scope is cached under. */
  datatype NativeFrame<F> = NativeFrame(frame: F, scope: Key)

  /** `eval` says whether the frame's scope names the evaluation function of the interpreter. */
  datatype Native<F> = Native(frame: F, eval: bool)

  datatype Out<F> = FromPython(frame: F) | FromNative(frame: F)

  // ---- What the loop does -------------------------------------------------------------------------------

  function Last<T>(xs: seq<T>): T
    requires xs != []
  {
    xs[|xs| - 1]
  }

  function Init<T>(xs: seq<T>): seq<T>
    requires xs != []
  {
    xs[..|xs| - 1]
  }

  /** What is above the highest marker of the stack, in the order it is popped, and what is below it. */
  function TakeStretch<F>(py: seq<Slot<F>>): (r: (seq<Out<F>>, seq<Slot<F>>)) {
    if py == [] then ([], [])
    else if Last(py).Marker? then ([], Init(py))
    else
      var (fs, left) := TakeStretch(Init(py));
      ([FromPython(Last(py).frame)] + fs, left)
  }

  /** What one evaluation frame pops: up to a marker from 3.11 on, and a single frame before. */
  function Popped<F>(marked: bool, py: seq<Slot<F>>): (r: (seq<Out<F>>, seq<Slot<F>>))
    requires py != [] && (marked || NoMarkers(py))
    ensures marked || NoMarkers(r.1)
  {
    if marked then TakeStretch(py) else ([FromPython(Last(py).frame)], Init(py))
  }

  ghost predicate NoMarkers<F>(py: seq<Slot<F>>) {
    forall slot :: slot in py ==> slot.Held?
  }

  /** What is emitted, and what is left of the Python stack; a NULL native frame ends the loop. */
  function Merge<F>(marked: bool, py: seq<Slot<F>>, native: seq<Option<Native<F>>>): (r: (seq<Out<F>>, seq<Slot<F>>))
    requires marked || NoMarkers(py)
    decreases |native|
  {
    if native == [] || Last(native).None? then ([], py)
    else
      var n := Last(native).value;
      if py != [] && n.eval then
        var (fs, left) := Popped(marked, py);
        var (rest, left') := Merge(marked, left, Init(native));
        (fs + rest, left')
      else
        var (rest, left') := Merge(marked, py, Init(native));
        ([FromNative(n.frame)] + rest, left')
  }

  lemma {:induction false} MergeEval<F>(marked: bool, py: seq<Slot<F>>, native: seq<Option<Native<F>>>)
    requires marked || NoMarkers(py)
    requires py != [] && native != [] && Last(native).Some? && Last(native).value.eval
    ensures var (fs, left) := Popped(marked, py);
      Merge(marked, py, native) == (fs + Merge(marked, left, Init(native)).0, Merge(marked, left, Init(native)).1)
  {
    hide Popped, NoMarkers;
  }

  lemma {:induction false} MergeNative<F>(marked: bool, py: seq<Slot<F>>, native: seq<Option<Native<F>>>)
    requires marked || NoMarkers(py)
    requires native != [] && Last(native).Some? && (py == [] || !Last(native).value.eval)
    ensures Merge(marked, py, native) ==
            ([FromNative(Last(native).value.frame)] + Merge(marked, py, Init(native)).0,
             Merge(marked, py, Init(native)).1)
  {
    hide Popped, NoMarkers;
  }

  lemma {:induction false} MergeEnd<F>(marked: bool, py: seq<Slot<F>>, native: seq<Option<Native<F>>>)
    requires (marked || NoMarkers(py)) && (native == [] || Last(native).None?)
    ensures Merge(marked, py, native) == ([], py)
  {
  }

  // ---- Evaluation frames --------------------------------------------------------------------------------

  /** `PyEval_EvalFrameDefault` */
  const EVAL_FRAME: seq<Byte> :=
    [80, 121, 69, 118, 97, 108, 95, 69, 118, 97, 108, 70, 114, 97, 109, 101, 68, 101, 102, 97, 117, 108, 116]

  predicate Occurs(text: seq<Byte>, part: seq<Byte>, i: nat) {
    i + |part| <= |text| && text[i..i + |part|] == part
  }

  /** `strstr` */
  predicate Contains(text: seq<Byte>, part: seq<Byte>)
    ensures Contains(text, part) <==> exists i: nat :: Occurs(text, part, i)
  {
    OccursLater(text, part);
    Occurs(text, part, 0) || (text != [] && Contains(text[1..], part))
  }

  lemma {:induction false} OccursLater(text: seq<Byte>, part: seq<Byte>)
    ensures forall i: nat :: 0 < i && Occurs(text, part, i) ==> text != [] && Occurs(text[1..], part, i - 1)
    ensures text != [] ==> forall i: nat :: Occurs(text[1..], part, i) ==> Occurs(text, part, i + 1)
  {
    if text != [] {
      forall i: nat | 0 < i && Occurs(text, part, i) ensures Occurs(text[1..], part, i - 1) {
        SliceOfTail(text, i - 1, |part|);
      }
      forall i: nat | Occurs(text[1..], part, i) ensures Occurs(text, part, i + 1) {
        SliceOfTail(text, i, |part|);
      }
    }
  }

  lemma {:induction false} SliceOfTail(text: seq<Byte>, i: nat, n: nat)
    requires i + 1 + n <= |text|
    ensures text[1..][i..i + n] == text[i + 1..i + 1 + n]
  {
    var xs, ys := text[1..][i..i + n], text[i + 1..i + 1 + n];
    forall k | 0 <= k < n ensures xs[k] == ys[k] {
      assert xs[k] == text[1..][i + k] == text[1 + (i + k)];
    }
  }

  /** A scope that is not cached is unknown, and names nothing. */
  predicate IsEval(scope: Option<M.Text>) {
    scope.Some? && Contains(scope.value, EVAL_FRAME)
  }

  /** The string at the address is cached, and has the name of the evaluation function in it. */
  ghost predicate NamesEval(strings: L.Lru<M.Text>, scope: Key) {
    exists p, i: nat ::
      p in strings.pairs && p.key == scope
      && Occurs(p.value, [80, 121, 69, 118, 97, 108, 95, 69, 118, 97, 108, 70, 114, 97, 109, 101,
                          68, 101, 102, 97, 117, 108, 116], i)
  }

  /** The test of the loop. */
  lemma {:induction false} EvalIsNamed(strings: L.Lru<M.Text>, scope: Key)
    requires L.WellFormed(strings)
    ensures IsEval(L.HitValue(strings, scope)) <==> NamesEval(strings, scope)
  {
    hide L.WellFormed, Contains, Occurs;
    L.WellFormedKeys(strings);
    var ps := strings.pairs;
    if p, i: nat :| p in ps && p.key == scope && Occurs(p.value, EVAL_FRAME, i) {
      L.FindPair(ps, ps, p);
    }
    if IsEval(L.HitValue(strings, scope)) {
      var p := ps[L.IndexOf(ps, scope)];
      var i: nat :| Occurs(p.value, EVAL_FRAME, i);
      assert p in ps;
    }
  }

  ghost function Natives<F>(strings: L.Lru<M.Text>, frames: seq<Option<NativeFrame<F>>>): (ns: seq<Option<Native<F>>>)
    ensures |ns| == |frames|
  {
    seq(|frames|, i requires 0 <= i < |frames| =>
      if frames[i] == None then None
      else Some(Native(frames[i].value.frame, NamesEval(strings, frames[i].value.scope))))
  }

  /** The string cache after the scopes of the native frames were looked up. */
  function LookedUp<F>(strings: L.Lru<M.Text>, frames: seq<Option<NativeFrame<F>>>): L.Lru<M.Text>
    decreases |frames|
  {
    if frames == [] || Last(frames) == None then strings
    else LookedUp(L.Hit(strings, Last(frames).value.scope), Init(frames))
  }

  /** Lookups change the order of recency and no value. */
  ghost predicate SameValues(s: L.Lru<M.Text>, r: L.Lru<M.Text>) {
    L.WellFormed(r) && forall key :: L.HitValue(r, key) == L.HitValue(s, key)
  }

  lemma {:induction false} HitSameValues(s: L.Lru<M.Text>, r: L.Lru<M.Text>, key: Key)
    requires SameValues(s, r)
    ensures SameValues(s, L.Hit(r, key))
  {
    var i := L.IndexOf(r.pairs, key);
    if i < |r.pairs| {
      var h := L.Hit(r, key);
      L.FrontWellFormed(r, i);
      L.MoveToFrontMembers(r.pairs, i);
      forall k ensures L.HitValue(h, k) == L.HitValue(r, k) {
        HitValueMoves(r, h, k);
      }
    }
  }

  lemma {:induction false} HitValueMoves(r: L.Lru<M.Text>, h: L.Lru<M.Text>, k: Key)
    requires L.WellFormed(r) && L.WellFormed(h) && multiset(h.pairs) == multiset(r.pairs)
    ensures L.HitValue(h, k) == L.HitValue(r, k)
  {
    hide L.WellFormed;
    L.WellFormedKeys(h);
    L.WellFormedKeys(r);
    var i, j := L.IndexOf(r.pairs, k), L.IndexOf(h.pairs, k);
    if i < |r.pairs| {
      L.FindPair(r.pairs, h.pairs, r.pairs[i]);
    } else if j < |h.pairs| {
      L.FindPair(h.pairs, r.pairs, h.pairs[j]);
    }
  }

  lemma {:induction false} NativesInit<F>(strings: L.Lru<M.Text>, frames: seq<Option<NativeFrame<F>>>)
    requires frames != []
    ensures Init(Natives(strings, frames)) == Natives(strings, Init(frames))
  {
  }

  class MixedStack<F(0)> {
    const base: array<Slot<F>>
    const nativeBase: array<Option<NativeFrame<F>>>
    var pointer: nat
    var nativePointer: nat

    ghost predicate Valid()
      reads this
    {
      pointer <= base.Length && nativePointer <= nativeBase.Length
    }

    constructor (size: nat)
      ensures Valid() && pointer == 0 && nativePointer == 0 && fresh(base) && fresh(nativeBase)
      ensures base.Length == nativeBase.Length == size
    {
      base := new Slot<F>[size](_ => Marker);
      nativeBase := new Option<NativeFrame<F>>[size](_ => None);
      pointer, nativePointer := 0, 0;
    }

    method Push(slot: Slot<F>)
      requires Valid() && pointer < base.Length
      modifies `pointer, base
      ensures Valid() && base[..pointer] == old(base[..pointer]) + [slot]
    {
      base[pointer] := slot;
      pointer := pointer + 1;
    }

    method Pop() returns (slot: Slot<F>)
      requires Valid() && pointer > 0
      modifies `pointer
      ensures Valid() && old(base[..pointer]) == base[..pointer] + [slot]
      ensures pointer == old(pointer) - 1
    {
      pointer := pointer - 1;
      slot := base[pointer];
    }

    method NativePush(frame: Option<NativeFrame<F>>)
      requires Valid() && nativePointer < nativeBase.Length
      modifies `nativePointer, nativeBase
      ensures Valid() && nativeBase[..nativePointer] == old(nativeBase[..nativePointer]) + [frame]
    {
      nativeBase[nativePointer] := frame;
      nativePointer := nativePointer + 1;
    }

    method NativePop() returns (frame: Option<NativeFrame<F>>)
      requires Valid() && nativePointer > 0
      modifies `nativePointer
      ensures Valid() && old(nativeBase[..nativePointer]) == nativeBase[..nativePointer] + [frame]
      ensures nativePointer == old(nativePointer) - 1
    {
      nativePointer := nativePointer - 1;
      frame := nativeBase[nativePointer];
    }

    /** What unwinding pushes: the innermost stretch first, each from its innermost frame on, then a marker. */
    method PushStretches(stretches: seq<seq<F>>)
      requires Valid() && pointer + |Marked(stretches)| <= base.Length
      modifies `pointer, base
      ensures Valid() && base[..pointer] == old(base[..pointer]) + Marked(stretches)
    {
      hide Marked;
      var k := |stretches|;
      MarkedNone(stretches[k..]);
      assert stretches[0..] == stretches;
      while k > 0
        invariant 0 <= k <= |stretches| && Valid()
        invariant base[..pointer] == old(base[..pointer]) + Marked(stretches[k..])
        invariant |base[..pointer]| == |old(base[..pointer])| + |Marked(stretches[k..])|
      {
        k := k - 1;
        ghost var was, next := base[..pointer], stretches[k + 1..];
        assert stretches[k..][1..] == next;
        MarkedOneMore(stretches[k..]);
        MarkedTail(stretches, k);
        PushFrames(stretches[k]);
        Push(Marker);
      }
    }

    method PushFrames(fs: seq<F>)
      requires Valid() && pointer + |fs| <= base.Length
      modifies `pointer, base
      ensures Valid() && base[..pointer] == old(base[..pointer]) + Pushed(fs)
    {
      var j := |fs|;
      while j > 0
        invariant 0 <= j <= |fs| && Valid() && pointer == old(pointer) + |fs| - j
        invariant base[..pointer] == old(base[..pointer]) + Pushed(fs[j..])
      {
        j := j - 1;
        Push(Held(fs[j]));
        assert Pushed(fs[j..]) == Pushed(fs[j + 1..]) + [Held(fs[j])];
      }
      assert fs[0..] == fs;
    }

    method PushNative(native: seq<NativeFrame<F>>)
      requires Valid() && nativePointer + |native| <= nativeBase.Length
      modifies `nativePointer, nativeBase
      ensures Valid() && nativeBase[..nativePointer] == old(nativeBase[..nativePointer]) + NativeFrames(native)
    {
      var j := |native|;
      while j > 0
        invariant 0 <= j <= |native| && Valid() && nativePointer == old(nativePointer) + |native| - j
        invariant nativeBase[..nativePointer] == old(nativeBase[..nativePointer]) + NativeFrames(native[j..])
      {
        j := j - 1;
        NativePush(Some(native[j]));
        assert NativeFrames(native[j..]) == NativeFrames(native[j + 1..]) + [Some(native[j])];
      }
      assert native[0..] == native;
    }

    /** Pop and emit down to the next marker. */
    method EmitStretch() returns (out: seq<Out<F>>)
      requires Valid() && pointer > 0
      modifies `pointer
      ensures Valid() && out == TakeStretch(old(base[..pointer])).0
      ensures base[..pointer] == TakeStretch(old(base[..pointer])).1
    {
      ghost var was := base[..pointer];
      out := [];
      var frame := Pop();
      while frame != Marker
        invariant Valid()
        invariant out + TakeStretch(base[..pointer] + [frame]).0 == TakeStretch(was).0
        invariant TakeStretch(base[..pointer] + [frame]).1 == TakeStretch(was).1
        decreases pointer, frame != Marker
      {
        assert Init(base[..pointer] + [frame]) == base[..pointer];
        out := out + [FromPython(frame.frame)];
        if pointer == 0 {
          return;
        }
        frame := Pop();
      }
      assert Init(base[..pointer] + [frame]) == base[..pointer];
    }

    method EmitPopped(marked: bool) returns (out: seq<Out<F>>)
      requires Valid() && pointer > 0 && (marked || NoMarkers(base[..pointer]))
      modifies `pointer
      ensures Valid() && (marked || NoMarkers(base[..pointer]))
      ensures out == Popped(marked, old(base[..pointer])).0
      ensures base[..pointer] == Popped(marked, old(base[..pointer])).1
    {
      if marked {
        out := EmitStretch();
      } else {
        var frame := Pop();
        out := [FromPython(frame.frame)];
      }
    }

    /** One native frame: an evaluation frame gives way to Python frames while there are any. */
    method EmitOne(marked: bool, frame: F, eval: bool, ghost natives: seq<Option<Native<F>>>) returns (fs: seq<Out<F>>)
      requires Valid() && (marked || NoMarkers(base[..pointer]))
      requires natives != [] && Last(natives) == Some(Native(frame, eval))
      modifies `pointer
      ensures Valid() && (marked || NoMarkers(base[..pointer]))
      ensures Merge(marked, old(base[..pointer]), natives).0 ==
              fs + Merge(marked, base[..pointer], Init(natives)).0
      ensures Merge(marked, old(base[..pointer]), natives).1 == Merge(marked, base[..pointer], Init(natives)).1
    {
      hide Merge, Popped, NoMarkers;
      ghost var py := base[..pointer];
      if pointer > 0 && eval {
        MergeEval(marked, py, natives);
        fs := EmitPopped(marked);
      } else {
        MergeNative(marked, py, natives);
        fs := [FromNative(frame)];
      }
    }

    method EmitInterleaved(marked: bool, strings: LruCache<M.Text>) returns (out: seq<Out<F>>)
      requires Valid() && (marked || NoMarkers(base[..pointer]))
      requires strings.Valid() && {this, base, nativeBase} !! strings.Repr
      modifies `pointer, `nativePointer, strings.Repr
      ensures Valid() && strings.Valid() && fresh(strings.Repr - old(strings.Repr))
      ensures var py, frames := old(base[..pointer]), old(nativeBase[..nativePointer]);
        var below := if marked && py != [] then Init(py) else py;
        var (emitted, left) := Merge(marked, below, Natives(old(strings.State()), frames));
        out == emitted && base[..pointer] == left
      ensures strings.State() == LookedUp(old(strings.State()), old(nativeBase[..nativePointer]))
    {
      hide LruCache.Valid, Merge, Popped, NoMarkers, Natives, SameValues, IsEval, NamesEval, L.Hit, L.HitValue,
        L.WellFormed, Contains;
      out := [];
      if marked && pointer > 0 {
        var _ := Pop();
      }
      ghost var s, all := strings.State(), nativeBase[..nativePointer];
      ghost var merged := Merge(marked, base[..pointer], Natives(s, all));
      strings.StateWellFormed();
      SameAtFirst(s);
      while nativePointer > 0
        invariant Valid() && (marked || NoMarkers(base[..pointer]))
        invariant strings.Valid() && fresh(strings.Repr - old(strings.Repr)) && SameValues(s, strings.State())
        invariant LookedUp(strings.State(), nativeBase[..nativePointer]) == LookedUp(s, all)
        invariant out + Merge(marked, base[..pointer], Natives(s, nativeBase[..nativePointer])).0 == merged.0
        invariant Merge(marked, base[..pointer], Natives(s, nativeBase[..nativePointer])).1 == merged.1
      {
        ghost var py, frames := base[..pointer], nativeBase[..nativePointer];
        ghost var natives := Natives(s, frames);
        var native := NativePop();
        assert Init(frames) == nativeBase[..nativePointer] && Last(frames) == native;
        NativesInit(s, frames);
        NativesLast(s, strings.State(), frames);
        if native == None {
          MergeEnd(marked, py, natives);
          return;
        }
        HitSameValues(s, strings.State(), native.value.scope);
        var scope := strings.MaybeHit(native.value.scope);
        var fs := EmitOne(marked, native.value.frame, IsEval(scope), natives);
        out := out + fs;
      }
      MergeEnd(marked, base[..pointer], Natives(s, nativeBase[..nativePointer]));
    }
  }

  lemma {:induction false} SameAtFirst(s: L.Lru<M.Text>)
    requires L.WellFormed(s)
    ensures SameValues(s, s)
  {
  }

  lemma {:induction false} NativesLast<F>(s: L.Lru<M.Text>, r: L.Lru<M.Text>, frames: seq<Option<NativeFrame<F>>>)
    requires L.WellFormed(s) && SameValues(s, r) && frames != []
    ensures var n := Last(Natives(s, frames)); var f := Last(frames);
      if f == None then n == None
      else n == Some(Native(f.value.frame, IsEval(L.HitValue(r, f.value.scope))))
  {
    hide IsEval, NamesEval, L.WellFormed, L.HitValue;
    if Last(frames) != None {
      EvalIsNamed(s, Last(frames).value.scope);
    }
  }

  // ---- What it means ------------------------------------------------------------------------------------

  // Native frames and stretches of Python frames are listed from the outermost to the innermost, which is
  // the order of emission and the reverse of the order on the stacks.

  function Reversed<T>(xs: seq<T>): (ys: seq<T>)
    ensures |ys| == |xs|
  {
    seq(|xs|, i requires 0 <= i < |xs| => xs[|xs| - 1 - i])
  }

  function Pushed<F>(fs: seq<F>): seq<Slot<F>> {
    Reversed(seq(|fs|, i requires 0 <= i < |fs| => Held(fs[i])))
  }

  /** The Python stack that unwinding leaves: a marker on top of each stretch. */
  function Marked<F>(stretches: seq<seq<F>>): seq<Slot<F>> {
    if stretches == [] then [] else Marked(stretches[1..]) + Pushed(stretches[0]) + [Marker]
  }

  /** The same without the marker on top of it all. */
  function Unmarked<F>(stretches: seq<seq<F>>): seq<Slot<F>> {
    if stretches == [] then [] else Marked(stretches[1..]) + Pushed(stretches[0])
  }

  function NativeStack<F>(native: seq<Native<F>>): seq<Option<Native<F>>> {
    Reversed(seq(|native|, i requires 0 <= i < |native| => Some(native[i])))
  }

  function Python<F>(fs: seq<F>): seq<Out<F>> {
    seq(|fs|, i requires 0 <= i < |fs| => FromPython(fs[i]))
  }

  function Evals<F>(native: seq<Native<F>>): (n: nat)
    ensures n <= |native|
  {
    if native == [] then 0 else Evals(Init(native)) + if Last(native).eval then 1 else 0
  }

  /** What takes the place of the k-th native frame. */
  function Piece<F>(native: seq<Native<F>>, stretches: seq<seq<F>>, k: nat): seq<Out<F>>
    requires k < |native|
  {
    var i := Evals(native[..k]);
    if native[k].eval && i < |stretches| then Python(stretches[i]) else [FromNative(native[k].frame)]
  }

  /** The native stack with its i-th evaluation frame replaced by the i-th stretch. */
  function Spliced<F>(native: seq<Native<F>>, stretches: seq<seq<F>>): seq<Out<F>> {
    if native == [] then [] else Spliced(Init(native), stretches) + Piece(native, stretches, |native| - 1)
  }

  /** How many stretches the evaluation frames use up. */
  function Used<F>(native: seq<Native<F>>, stretches: seq<seq<F>>): (n: nat)
    ensures n <= |stretches|
  {
    if Evals(native) < |stretches| then Evals(native) else |stretches|
  }

  lemma {:induction false} SplicedNone<F>(native: seq<Native<F>>, stretches: seq<seq<F>>)
    requires native == []
    ensures Spliced(native, stretches) == []
  {
  }

  lemma {:induction false} TakeUnmarked<F>(stretches: seq<seq<F>>, fs: seq<F>)
    ensures TakeStretch(Marked(stretches) + Pushed(fs)) == (Python(fs), Unmarked(stretches))
  {
    var py := Marked(stretches) + Pushed(fs);
    if fs == [] {
      assert py == Marked(stretches);
      if stretches != [] {
        assert Init(py) == Unmarked(stretches);
      }
    } else {
      assert Last(py) == Held(fs[0]) && Init(py) == Marked(stretches) + Pushed(fs[1..]);
      TakeUnmarked(stretches, fs[1..]);
      assert Python(fs) == [FromPython(fs[0])] + Python(fs[1..]);
    }
  }

  lemma {:induction false} EvalsFront<F>(native: seq<Native<F>>)
    requires native != []
    ensures Evals(native) == (if native[0].eval then 1 else 0) + Evals(native[1..])
  {
    if |native| > 1 {
      EvalsFront(Init(native));
      assert Init(native)[1..] == Init(native[1..]);
    }
  }

  lemma {:induction false} PieceOfInit<F>(native: seq<Native<F>>, stretches: seq<seq<F>>, k: nat)
    requires k < |native| - 1
    ensures Piece(Init(native), stretches, k) == Piece(native, stretches, k)
  {
    assert Init(native)[..k] == native[..k];
  }

  lemma {:induction false} PieceOfTail<F>(native: seq<Native<F>>, stretches: seq<seq<F>>, k: nat)
    requires 0 < k < |native|
    ensures var used := if native[0].eval && stretches != [] then 1 else 0;
      Piece(native, stretches, k) == Piece(native[1..], stretches[used..], k - 1)
  {
    EvalsFront(native[..k]);
    assert native[..k][1..] == native[1..][..k - 1];
  }

  lemma {:induction false} SplicedFront<F>(native: seq<Native<F>>, stretches: seq<seq<F>>)
    requires native != []
    ensures var used := if native[0].eval && stretches != [] then 1 else 0;
      Spliced(native, stretches) == Piece(native, stretches, 0) + Spliced(native[1..], stretches[used..])
  {
    hide Piece, Evals;
    var used, n := if native[0].eval && stretches != [] then 1 else 0, |native| - 1;
    if n == 0 {
      assert Spliced(Init(native), stretches) == [];
    } else {
      SplicedFront(Init(native), stretches);
      assert Init(native)[1..] == Init(native[1..]);
      PieceOfInit(native, stretches, 0);
      PieceOfTail(native, stretches, n);
    }
  }

  /** The stretches that an evaluation frame can take: nothing marks where an empty innermost one ends. */
  function Seen<F>(stretches: seq<seq<F>>): (r: seq<seq<F>>)
    ensures r == stretches || (stretches != [] && r == Init(stretches))
  {
    if stretches != [] && Last(stretches) == [] then Init(stretches) else stretches
  }

  lemma {:induction false} SeenTail<F>(stretches: seq<seq<F>>)
    requires Seen(stretches) != []
    ensures Unmarked(stretches) != []
    ensures Seen(stretches)[0] == stretches[0] && Seen(stretches)[1..] == Seen(stretches[1..])
  {
    if |stretches| > 1 {
      assert Last(stretches[1..]) == Last(stretches);
      assert Marked(stretches[1..]) != [];
    }
  }

  lemma {:induction false} UnseenIsEmpty<F>(stretches: seq<seq<F>>)
    requires Seen(stretches) == []
    ensures Unmarked(stretches) == []
  {
    if stretches != [] {
      assert |stretches| == 1 && stretches[0] == [] && Marked(stretches[1..]) == [];
    }
  }

  /** From 3.11 on. */
  lemma {:induction false} MergeSplices<F>(native: seq<Native<F>>, stretches: seq<seq<F>>)
    ensures Merge(true, Unmarked(stretches), NativeStack(native)) ==
            (Spliced(native, Seen(stretches)), Unmarked(stretches[Used(native, Seen(stretches))..]))
    decreases |native|
  {
    hide Merge, Spliced, Seen, Unmarked, Marked;
    var stack, py, seen := NativeStack(native), Unmarked(stretches), Seen(stretches);
    if native == [] {
      MergeEnd(true, py, stack);
      SplicedNone(native, seen);
      assert stretches[0..] == stretches;
    } else {
      assert Init(stack) == NativeStack(native[1..]) && Last(stack) == Some(native[0]);
      EvalsFront(native);
      SplicedFront(native, seen);
      assert native[..0] == [];
      if native[0].eval && seen != [] {
        SeenTail(stretches);
        UnmarkedIs(stretches);
        TakeUnmarked(stretches[1..], stretches[0]);
        MergeEval(true, py, stack);
        MergeSplices(native[1..], stretches[1..]);
        assert stretches[Used(native, seen)..] == stretches[1..][Used(native[1..], seen[1..])..];
      } else {
        if seen == [] {
          UnseenIsEmpty(stretches);
        }
        MergeNative(true, py, stack);
        MergeSplices(native[1..], stretches);
        assert seen[0..] == seen;
      }
    }
  }

  lemma {:induction false} UnmarkedIs<F>(stretches: seq<seq<F>>)
    requires stretches != []
    ensures Unmarked(stretches) == Marked(stretches[1..]) + Pushed(stretches[0])
  {
  }

  lemma {:induction false} SplicedWithoutInnermost<F>(native: seq<Native<F>>, stretches: seq<seq<F>>)
    requires stretches != [] && Last(stretches) == []
    ensures Evals(native) < |stretches| ==> Spliced(native, Init(stretches)) == Spliced(native, stretches)
    ensures Evals(native) >= |stretches| ==> |Spliced(native, Init(stretches))| == |Spliced(native, stretches)| + 1
  {
    if native != [] {
      SplicedWithoutInnermost(Init(native), stretches);
      assert native[..|native| - 1] == Init(native);
    }
  }

  /**
   Each evaluation frame is replaced by its stretch exactly when the innermost stretch is not empty, or
   no evaluation frame asks for it.
   */
  lemma {:induction false} EveryStretchIsSpliced<F>(native: seq<Native<F>>, stretches: seq<seq<F>>)
    ensures Merge(true, Unmarked(stretches), NativeStack(native)).0 == Spliced(native, stretches) <==>
            stretches == [] || Last(stretches) != [] || Evals(native) < |stretches|
  {
    hide Merge, Spliced, Unmarked, NativeStack;
    MergeSplices(native, stretches);
    if stretches != [] && Last(stretches) == [] {
      SplicedWithoutInnermost(native, stretches);
    }
  }

  lemma {:induction false} MarkedNone<F>(stretches: seq<seq<F>>)
    requires stretches == []
    ensures Marked(stretches) == []
  {
  }

  lemma {:induction false} MarkedOneMore<F>(stretches: seq<seq<F>>)
    requires stretches != []
    ensures Marked(stretches) == Marked(stretches[1..]) + Pushed(stretches[0]) + [Marker]
    ensures Init(Marked(stretches)) == Unmarked(stretches)
    ensures |Pushed(stretches[0])| == |stretches[0]|
  {
  }

  lemma {:induction false} MarkedTail<F>(stretches: seq<seq<F>>, k: nat)
    requires k <= |stretches|
    ensures |Marked(stretches[k..])| <= |Marked(stretches)|
    decreases k
  {
    if k == 0 {
      assert stretches[0..] == stretches;
    } else {
      assert stretches[k - 1..][1..] == stretches[k..];
      MarkedTail(stretches, k - 1);
    }
  }

  /** The native frames as they are stacked. */
  function NativeFrames<F>(native: seq<NativeFrame<F>>): seq<Option<NativeFrame<F>>> {
    Reversed(seq(|native|, i requires 0 <= i < |native| => Some(native[i])))
  }

  /** Which of them are evaluation frames. */
  ghost function Told<F>(strings: L.Lru<M.Text>, native: seq<NativeFrame<F>>): seq<Native<F>> {
    seq(|native|, i requires 0 <= i < |native| => Native(native[i].frame, NamesEval(strings, native[i].scope)))
  }

  lemma {:induction false} NativesTold<F>(strings: L.Lru<M.Text>, native: seq<NativeFrame<F>>)
    ensures Natives(strings, NativeFrames(native)) == NativeStack(Told(strings, native))
  {
    hide NamesEval;
  }

  /**
   The whole of it from 3.11 on: on the stacks that unwinding leaves, the loop emits the native frames with
   the i-th evaluation frame replaced by the i-th stretch.
   */
  method EmitMixed<F(0)>(native: seq<NativeFrame<F>>, stretches: seq<seq<F>>, strings: LruCache<M.Text>, size: nat)
    returns (out: seq<Out<F>>)
    requires strings.Valid() && |native| <= size && |Marked(stretches)| <= size
    modifies strings.Repr
    ensures strings.Valid() && fresh(strings.Repr - old(strings.Repr))
    ensures out == Spliced(Told(old(strings.State()), native), Seen(stretches))
  {
    hide LruCache.Valid, Merge, Spliced, Marked, Unmarked, NativeStack, Natives, Told, NativeFrames;
    var stack := new MixedStack<F>(size);
    stack.PushStretches(stretches);
    stack.PushNative(native);
    assert stack.base[..stack.pointer] == Marked(stretches);
    assert stack.nativeBase[..stack.nativePointer] == NativeFrames(native);
    assert strings.State() == old(strings.State());
    out := stack.EmitInterleaved(true, strings);
    if stretches == [] {
      MarkedNone(stretches);
      UnmarkedNone(stretches);
    } else {
      MarkedOneMore(stretches);
    }
    NativesTold(old(strings.State()), native);
    MergeSplices(Told(old(strings.State()), native), stretches);
  }

  lemma {:induction false} UnmarkedNone<F>(stretches: seq<seq<F>>)
    requires stretches == []
    ensures Unmarked(stretches) == []
  {
  }

  function Singles<F>(fs: seq<F>): (r: seq<seq<F>>)
    ensures |r| == |fs|
  {
    seq(|fs|, i requires 0 <= i < |fs| => [fs[i]])
  }

  /** Before 3.11 every evaluation frame runs one Python frame. */
  lemma {:induction false} MergeSplicesOld<F>(native: seq<Native<F>>, fs: seq<F>)
    ensures NoMarkers(Pushed(fs))
    ensures Merge(false, Pushed(fs), NativeStack(native)) ==
            (Spliced(native, Singles(fs)), Pushed(fs[Used(native, Singles(fs))..]))
    decreases |native|
  {
    hide Merge, Spliced;
    if native == [] {
      MergeEnd(false, Pushed(fs), NativeStack(native));
      assert fs[0..] == fs && Spliced(native, Singles(fs)) == [] by { SplicedNone(native, Singles(fs)); }
    } else {
      var stack, py := NativeStack(native), Pushed(fs);
      assert Init(stack) == NativeStack(native[1..]) && Last(stack) == Some(native[0]);
      EvalsFront(native);
      SplicedFront(native, Singles(fs));
      assert native[..0] == [];
      if native[0].eval && fs != [] {
        assert Last(py) == Held(fs[0]) && Init(py) == Pushed(fs[1..]);
        MergeSplicesOld(native[1..], fs[1..]);
        assert Singles(fs)[1..] == Singles(fs[1..]);
        assert [FromPython(fs[0])] == Python([fs[0]]);
        MergeEval(false, py, stack);
      } else {
        MergeSplicesOld(native[1..], fs);
        MergeNative(false, py, stack);
        assert Singles(fs)[0..] == Singles(fs);
      }
    }
  }

  // ---- Order and loss -------------------------------------------------------------------------------------

  function PythonPart<F>(out: seq<Out<F>>): seq<F> {
    if out == [] then [] else PythonPart(Init(out)) + if Last(out).FromPython? then [Last(out).frame] else []
  }

  function NativePart<F>(out: seq<Out<F>>): seq<F> {
    if out == [] then [] else NativePart(Init(out)) + if Last(out).FromNative? then [Last(out).frame] else []
  }

  function Flatten<F>(stretches: seq<seq<F>>): seq<F> {
    if stretches == [] then [] else Flatten(Init(stretches)) + Last(stretches)
  }

  function NotEval<F>(native: seq<Native<F>>): seq<F> {
    if native == [] then [] else NotEval(Init(native)) + if Last(native).eval then [] else [Last(native).frame]
  }

  lemma {:induction false} PartsAppend<F>(xs: seq<Out<F>>, ys: seq<Out<F>>)
    ensures PythonPart(xs + ys) == PythonPart(xs) + PythonPart(ys)
    ensures NativePart(xs + ys) == NativePart(xs) + NativePart(ys)
  {
    if ys == [] {
      assert xs + ys == xs;
    } else {
      assert Init(xs + ys) == xs + Init(ys) && Last(xs + ys) == Last(ys);
      PartsAppend(xs, Init(ys));
    }
  }

  lemma {:induction false} PartsOfPython<F>(fs: seq<F>)
    ensures PythonPart(Python(fs)) == fs && NativePart(Python(fs)) == []
  {
    if fs != [] {
      assert Init(Python(fs)) == Python(Init(fs));
      PartsOfPython(Init(fs));
    }
  }

  /**
   With as many stretches as evaluation frames, every Python frame is emitted once, every native frame
   other than the evaluation frames is emitted once, and both keep their order.
   */
  lemma {:induction false} SplicedIsLossless<F>(native: seq<Native<F>>, stretches: seq<seq<F>>)
    requires Evals(native) <= |stretches|
    ensures PythonPart(Spliced(native, stretches)) == Flatten(stretches[..Evals(native)])
    ensures NativePart(Spliced(native, stretches)) == NotEval(native)
    decreases |native|
  {
    if native != [] {
      var n, i := |native| - 1, Evals(Init(native));
      var piece := Piece(native, stretches, n);
      SplicedIsLossless(Init(native), stretches);
      PartsAppend(Spliced(Init(native), stretches), piece);
      if native[n].eval {
        PartsOfPython(stretches[i]);
        assert Init(stretches[..i + 1]) == stretches[..i];
      } else {
        assert Init(piece) == [];
      }
    }
  }

  /** Python frames are left over exactly when there are fewer evaluation frames than stretches they can take. */
  lemma {:induction false} NothingLeftOver<F>(native: seq<Native<F>>, stretches: seq<seq<F>>)
    ensures Merge(true, Unmarked(stretches), NativeStack(native)).1 == [] <==> Evals(native) >= |Seen(stretches)|
  {
    hide Merge, Spliced, NativeStack, Unmarked, Marked;
    MergeSplices(native, stretches);
    var k := Used(native, Seen(stretches));
    if k == |Seen(stretches)| {
      UnseenIsEmpty(stretches[k..]);
    } else {
      assert Last(stretches[k..]) == Last(stretches);
      SeenTail(stretches[k..]);
    }
  }
}
