/**
 An induction principle for runs of the sampler: what cache lookups, definitions and other events keep, every
 run keeps.
 */
module RunInduction {
  import opened Common
  import opened FrameKeys
  import opened Stacks
  import opened SamplerModel
  import L = LruModel
  import M = MojoModel

  /** The caches as the sampler makes them. */
  ghost predicate Shaped(s: State)
    ensures Shaped(s) ==> Ready(s)
  {
    && Ready(s) && L.WellFormed(s.strings) && s.strings.expand
    && L.WellFormed(s.frames) && !s.frames.expand && s.frames.limit == MAX_FRAME_CACHE_SIZE
  }

  ghost predicate Held(strings: L.Lru<Text>, key: Key) {
    key in L.Keys(strings.pairs)
  }

  // ---- The two caches -----------------------------------------------------------------------------------

  /** The string cache expands: it loses nothing. */
  ghost predicate Extends(s: L.Lru<Text>, r: L.Lru<Text>) {
    forall p :: p in s.pairs ==> p in r.pairs
  }

  lemma {:induction false} HeldExtends(s: L.Lru<Text>, r: L.Lru<Text>, key: Key)
    requires Extends(s, r) && Held(s, key)
    ensures Held(r, key)
  {
    var i :| 0 <= i < |s.pairs| && L.Keys(s.pairs)[i] == key;
    assert s.pairs[i] in s.pairs;
    PairHeld(r, s.pairs[i]);
  }

  lemma {:induction false} PairHeld(s: L.Lru<Text>, p: L.Pair<Text>)
    requires p in s.pairs
    ensures Held(s, p.key)
  {
    var i :| 0 <= i < |s.pairs| && s.pairs[i] == p;
    assert L.Keys(s.pairs)[i] == p.key;
  }

  lemma {:induction false} HitKeeps(s: L.Lru<Text>, key: Key)
    requires L.WellFormed(s) && Held(s, key)
    ensures var r := L.Hit(s, key);
      L.WellFormed(r) && r.expand == s.expand && Extends(s, r) && Extends(r, s) && Held(r, key)
  {
    var i := L.IndexOf(s.pairs, key);
    L.MoveToFrontMembers(s.pairs, i);
    L.FrontWellFormed(s, i);
    HeldExtends(s, L.Hit(s, key), key);
  }

  lemma {:induction false} StoreKeeps(s: L.Lru<Text>, key: Key, text: Text)
    requires L.WellFormed(s) && s.expand && !Held(s, key) && key != 0
    ensures var r := L.Store(s, key, text);
      && L.WellFormed(r) && r.expand && Extends(s, r) && Held(r, key)
      && forall p :: p in r.pairs ==> p == L.Pair(key, text) || (p in s.pairs && p.key != key)
  {
    L.AccessWellFormed(s, key, text);
    var r := L.Store(s, key, text);
    assert r.pairs == [L.Pair(key, text)] + s.pairs;
    assert L.Keys(r.pairs)[0] == key;
    forall p | p in s.pairs ensures p.key != key {
      PairHeld(s, p);
    }
  }

  lemma {:induction false} HitValueHeld(s: L.Lru<Text>, key: Key)
    ensures L.HitValue(s, key).Some? <==> Held(s, key)
  {
  }

  lemma {:induction false} FrameHitMembers(s: L.Lru<CodeFrame>, key: Key)
    requires L.WellFormed(s) && key in L.Keys(s.pairs)
    ensures var r := L.Hit(s, key);
      && L.WellFormed(r) && r.expand == s.expand && r.limit == s.limit
      && forall p :: p in r.pairs <==> p in s.pairs
  {
    var i := L.IndexOf(s.pairs, key);
    L.MoveToFrontMembers(s.pairs, i);
    L.FrontWellFormed(s, i);
  }

  lemma {:induction false} FrameStoreMembers(s: L.Lru<CodeFrame>, key: Key, frame: CodeFrame)
    requires L.WellFormed(s) && !s.expand && key !in L.Keys(s.pairs) && key != 0
    ensures var r := L.Store(s, key, frame);
      && L.WellFormed(r) && r.expand == s.expand && r.limit == s.limit
      && forall p :: p in r.pairs ==> p == L.Pair(key, frame) || (p in s.pairs && p.key != key)
  {
    L.AccessWellFormed(s, key, frame);
    var r := L.Store(s, key, frame);
    forall p | p in r.pairs ensures p == L.Pair(key, frame) || (p in s.pairs && p.key != key) {
      var i :| 0 <= i < |r.pairs| && r.pairs[i] == p;
      if i > 0 {
        assert p == s.pairs[i - 1] && L.Keys(s.pairs)[i - 1] == p.key;
      }
    }
  }

  // ---- Steps ----------------------------------------------------------------------------------------------

  /** A frame without where it was found. */
  function Spot(f: PyFrame): PyFrame {
    f.(origin := 0)
  }

  /** A string that making the frame reads now: the file first, and the scope once the file is held. */
  ghost predicate Asked(s: State, remote: Remote, f: PyFrame, key: Key) {
    && f.code in remote.codes && key != 0 && key in remote.strings && !Held(s.strings, key)
    && (key == remote.codes[f.code].filename
        || (key == remote.codes[f.code].scope && Held(s.strings, remote.codes[f.code].filename)))
  }

  /** The frame as it is made on a miss, once its strings are held. */
  ghost predicate Made(v: Version, s: State, remote: Remote, f: PyFrame, frame: CodeFrame) {
    && Proper(f) && CacheKey(f) !in L.Keys(s.frames.pairs)
    && f.code in remote.codes && MakeFrame(v, f.code, remote.codes[f.code], f.lasti) == Some(frame)
    && Held(s.strings, frame.filename) && Held(s.strings, frame.scope)
  }

  ghost predicate KeptByLookups(inv: State -> bool) {
    && (forall s, key :: Shaped(s) && inv(s) && Held(s.strings, key) ==> inv(s.(strings := L.Hit(s.strings, key))))
    && forall s, key :: Shaped(s) && inv(s) && key in L.Keys(s.frames.pairs) ==>
         inv(s.(frames := L.Hit(s.frames, key)))
  }

  ghost predicate KeptByStrings(inv: State -> bool, allowed: (Remote, PyFrame) -> bool) {
    forall s, remote, f, key ::
      Shaped(s) && inv(s) && allowed(remote, Spot(f)) && Asked(s, remote, f, key) ==>
      inv(WithString(s, key, remote.strings[key]))
  }

  ghost predicate KeptByFrames(v: Version, inv: State -> bool, allowed: (Remote, PyFrame) -> bool) {
    forall s, remote, f, frame ::
      Shaped(s) && inv(s) && allowed(remote, Spot(f)) && Made(v, s, remote, f, frame) ==>
      inv(WithFrame(s, CacheKey(f), frame))
  }

  /** What is kept by all that resolving a frame may do, as long as no frame or string but these is read. */
  ghost predicate KeptByResolving(v: Version, inv: State -> bool, allowed: (Remote, PyFrame) -> bool) {
    KeptByLookups(inv) && KeptByStrings(inv, allowed) && KeptByFrames(v, inv, allowed)
  }

  predicate Quiet(e: M.Event) {
    !e.Frame? && !e.StringDef?
  }

  ghost predicate AllQuiet(es: seq<M.Event>) {
    forall i :: 0 <= i < |es| ==> Quiet(es[i])
  }

  ghost predicate KeptByEvents(inv: State -> bool) {
    forall s, es :: Shaped(s) && inv(s) && AllQuiet(es) ==> inv(s.(out := s.out + es))
  }

  // ---- What keeps the shape -------------------------------------------------------------------------------

  lemma {:induction false} StringHitShaped(s: State, key: Key)
    requires Shaped(s) && Held(s.strings, key)
    ensures var r := s.(strings := L.Hit(s.strings, key)); Shaped(r) && Extends(s.strings, r.strings)
  {
    hide L.WellFormed;
    HitKeeps(s.strings, key);
  }

  lemma {:induction false} FrameHitShaped(s: State, key: Key)
    requires Shaped(s) && key in L.Keys(s.frames.pairs)
    ensures Shaped(s.(frames := L.Hit(s.frames, key)))
  {
    hide L.WellFormed;
    FrameHitMembers(s.frames, key);
  }

  lemma {:induction false} WithStringShaped(s: State, key: Key, text: Text)
    requires Shaped(s) && !Held(s.strings, key) && key != 0
    ensures var r := WithString(s, key, text);
      Shaped(r) && Extends(s.strings, r.strings) && Held(r.strings, key)
  {
    hide L.WellFormed, L.Store;
    StoreKeeps(s.strings, key, text);
  }

  lemma {:induction false} WithFrameShaped(s: State, key: Key, frame: CodeFrame)
    requires Shaped(s) && key !in L.Keys(s.frames.pairs) && key != 0
    ensures Shaped(WithFrame(s, key, frame))
  {
    hide L.WellFormed, L.Store;
    FrameStoreMembers(s.frames, key, frame);
  }

  // ---- Resolving keeps what its steps keep ------------------------------------------------------------------

  lemma {:induction false} InternKeeps(v: Version, inv: State -> bool, allowed: (Remote, PyFrame) -> bool, s: State,
          remote: Remote, f: PyFrame, key: Key)
    requires KeptByResolving(v, inv, allowed) && Shaped(s) && inv(s) && allowed(remote, Spot(f))
    requires f.code in remote.codes
    requires key == remote.codes[f.code].filename
             || (key == remote.codes[f.code].scope && Held(s.strings, remote.codes[f.code].filename))
    ensures var (r, ok) := Intern(s, remote.strings, key);
      Shaped(r) && inv(r) && Extends(s.strings, r.strings) && (ok ==> Held(r.strings, key))
  {
    hide KeptByFrames, Shaped, L.HitValue, L.Hit, Held, WithString;
    HitValueHeld(s.strings, key);
    if Held(s.strings, key) {
      StringHitShaped(s, key);
      HeldExtends(s.strings, L.Hit(s.strings, key), key);
    } else if key != 0 && key in remote.strings {
      assert Asked(s, remote, f, key);
      WithStringShaped(s, key, remote.strings[key]);
    }
  }

  lemma {:induction false} FrameFromCodeKeeps(v: Version, inv: State -> bool, allowed: (Remote, PyFrame) -> bool,
          s: State, remote: Remote, f: PyFrame)
    requires KeptByResolving(v, inv, allowed) && Shaped(s) && inv(s) && allowed(remote, Spot(f))
    requires Proper(f) && CacheKey(f) !in L.Keys(s.frames.pairs)
    ensures var (r, made) := FrameFromCode(v, s, remote, f.code, f.lasti);
      Shaped(r) && inv(r) && (made.Some? ==> Made(v, r, remote, f, made.value))
  {
    hide KeptByResolving, Shaped, Intern, Extends, Held, Proper, CacheKey, Locate, StoredKey;
    if f.code in remote.codes {
      var code := remote.codes[f.code];
      InternKeeps(v, inv, allowed, s, remote, f, code.filename);
      var (s1, named) := Intern(s, remote.strings, code.filename);
      if named {
        InternKeeps(v, inv, allowed, s1, remote, f, code.scope);
        var (s2, scoped) := Intern(s1, remote.strings, code.scope);
        HeldExtends(s1.strings, s2.strings, code.filename);
      }
    }
  }

  lemma {:induction false} ResolveOneKeeps(v: Version, inv: State -> bool, allowed: (Remote, PyFrame) -> bool,
          s: State, remote: Remote, f: PyFrame)
    requires KeptByResolving(v, inv, allowed) && Shaped(s) && inv(s) && allowed(remote, Spot(f)) && Proper(f)
    ensures var r := ResolveOne(v, s, remote, f).0; Shaped(r) && inv(r)
  {
    hide KeptByStrings, Shaped, FrameFromCode, WithFrame, Proper, CacheKey, L.HitValue, L.Hit;
    var key := CacheKey(f);
    L.MissChangesNothing(s.frames, key);
    if key in L.Keys(s.frames.pairs) {
      FrameHitShaped(s, key);
    } else {
      FrameFromCodeKeeps(v, inv, allowed, s, remote, f);
      var (s1, made) := FrameFromCode(v, s, remote, f.code, f.lasti);
      if made.Some? {
        KeyNotZero(f);
        WithFrameShaped(s1, key, made.value);
      }
    }
  }

  lemma {:induction false} KeyNotZero(f: PyFrame)
    requires Proper(f)
    ensures CacheKey(f) != 0
  {
  }

  ghost predicate AllAllowed(allowed: (Remote, PyFrame) -> bool, remote: Remote, fs: seq<PyFrame>) {
    forall i :: 0 <= i < |fs| ==> allowed(remote, Spot(fs[i]))
  }

  lemma {:induction false} ResolveKeeps(v: Version, inv: State -> bool, allowed: (Remote, PyFrame) -> bool,
          s: State, remote: Remote, fs: seq<PyFrame>)
    requires KeptByResolving(v, inv, allowed) && Shaped(s) && inv(s) && AllProper(fs)
    requires AllAllowed(allowed, remote, fs)
    ensures var r := Resolve(v, s, remote, fs).0; Shaped(r) && inv(r)
  {
    hide KeptByResolving, Shaped, ResolveOne, Proper, AllProper, Ready;
    if fs != [] {
      var n := |fs| - 1;
      AllProperInit(fs);
      ResolveKeeps(v, inv, allowed, s, remote, fs[..n]);
      var (s1, before) := Resolve(v, s, remote, fs[..n]);
      if |before| == n {
        ResolveOneKeeps(v, inv, allowed, s1, remote, fs[n]);
      }
    }
  }

  // ---- So do samples and runs -------------------------------------------------------------------------------

  /** The frames that the sample may come across are allowed. */
  ghost predicate Admits(allowed: (Remote, PyFrame) -> bool, smp: Sample) {
    && ProperMemory(smp.mem)
    && forall a :: a in smp.mem ==> allowed(smp.remote, PyFrame(0, smp.mem[a].code, smp.mem[a].lasti))
  }

  lemma {:induction false} WalkAllowed(allowed: (Remote, PyFrame) -> bool, smp: Sample, top: Key, n: nat)
    requires Admits(allowed, smp) && Nth(smp.mem, top, n).Some?
    ensures AllAllowed(allowed, smp.remote, Walk(smp.mem, top, n))
  {
    hide ProperMemory;
    if n > 0 {
      WalkAllowed(allowed, smp, top, n - 1);
      var a := Nth(smp.mem, top, n - 1).value;
      assert Spot(PyFrame(a, smp.mem[a].code, smp.mem[a].lasti)) == PyFrame(0, smp.mem[a].code, smp.mem[a].lasti);
    }
  }

  lemma {:induction false} UnwoundAllowed(v: Version, allowed: (Remote, PyFrame) -> bool, smp: Sample)
    requires Admits(allowed, smp)
    ensures AllAllowed(allowed, smp.remote, Unwound(v, smp).0)
  {
    hide ProperMemory, Walk;
    var top := if v.V311? then smp.cframe else Some(smp.top);
    if top.Some? && !(v.V311? && top.value == 0) {
      WalkAllowed(allowed, smp, top.value, Climb(smp.mem, top.value, 0, MAX_STACK_SIZE).0);
    }
  }

  lemma {:induction false} EventsKeep(inv: State -> bool, s: State, es: seq<M.Event>)
    requires KeptByEvents(inv) && Shaped(s) && inv(s) && AllQuiet(es)
    ensures var r := s.(out := s.out + es); Shaped(r) && inv(r)
  {
    hide AllQuiet, L.WellFormed;
  }

  lemma {:induction false} InvalidKeeps(inv: State -> bool, s: State, bad: bool)
    requires KeptByEvents(inv) && Shaped(s) && inv(s)
    ensures var r := InvalidIf(bad, s); Shaped(r) && inv(r)
  {
    hide Shaped, KeptByEvents;
    EventsKeep(inv, s, [M.FrameInvalid]);
  }

  lemma {:induction false} ShapedReady(s: State)
    requires Shaped(s)
    ensures Ready(s) && L.WellFormed(s.frames) && s.frames.limit == MAX_FRAME_CACHE_SIZE && !s.frames.expand
  {
  }

  lemma {:induction false} CollectKeeps(v: Version, inv: State -> bool, allowed: (Remote, PyFrame) -> bool,
          s: State, smp: Sample)
    requires KeptByResolving(v, inv, allowed) && KeptByEvents(inv) && Shaped(s) && inv(s) && Admits(allowed, smp)
    ensures var r := Collect(v, s, smp).0; Shaped(r) && inv(r)
  {
    hide KeptByResolving, KeptByEvents, Shaped, Resolve, Proper, ProperMemory, Unwound, AllAllowed, Invalid, Ready;
    if smp.top != 0 {
      var (fs, bad) := Unwound(v, smp);
      UnwoundAllowed(v, allowed, smp);
      ShapedReady(s);
      if v.V311? {
        CollectOnce(v, s, smp);
      } else {
        InvalidKeeps(inv, s, bad);
      }
      var s0 := if v.V311? then s else InvalidIf(bad, s);
      ResolveKeeps(v, inv, allowed, s0, smp.remote, fs);
      var (s1, frames) := Resolve(v, s0, smp.remote, fs);
      InvalidKeeps(inv, s1, if v.V311? then bad || |frames| < |fs| else |frames| < |fs|);
    }
  }

  lemma {:induction false} RefsQuiet(frames: seq<CodeFrame>)
    ensures AllQuiet(Refs(frames))
  {
    if frames != [] {
      RefsQuiet(frames[1..]);
    }
  }

  lemma {:induction false} TailQuiet(o: Options, smp: Sample)
    ensures AllQuiet(Tail(o, smp))
  {
  }

  lemma {:induction false} BeginKeeps(inv: State -> bool, s: State, smp: Sample)
    requires KeptByEvents(inv) && Shaped(s) && inv(s)
    ensures Shaped(Begin(s, smp)) && inv(Begin(s, smp))
  {
    hide Shaped, KeptByEvents;
    EventsKeep(inv, s, [M.Stack(smp.pid, smp.iid, smp.tid)]);
  }

  lemma {:induction false} EmitKeeps(v: Version, inv: State -> bool, allowed: (Remote, PyFrame) -> bool,
          o: Options, s: State, smp: Sample)
    requires KeptByResolving(v, inv, allowed) && KeptByEvents(inv) && Shaped(s) && inv(s) && Admits(allowed, smp)
    ensures var r := Emit(v, o, s, smp); Shaped(r) && inv(r)
  {
    hide KeptByResolving, KeptByEvents, Shaped, Admits, Collect, Refs, Tail, Skips, Ready, Quiet;
    AdmitsProper(allowed, smp);
    if !Skips(o, smp, 0) {
      BeginKeeps(inv, s, smp);
      CollectKeeps(v, inv, allowed, Begin(s, smp), smp);
      var (s1, frames) := Collect(v, Begin(s, smp), smp);
      RefsQuiet(frames);
      TailQuiet(o, smp);
      EventsKeep(inv, s1, Refs(frames) + Tail(o, smp));
      assert s1.out + (Refs(frames) + Tail(o, smp)) == s1.out + Refs(frames) + Tail(o, smp);
    }
  }

  lemma {:induction false} AdmitsProper(allowed: (Remote, PyFrame) -> bool, smp: Sample)
    requires Admits(allowed, smp)
    ensures ProperMemory(smp.mem)
  {
  }

  ghost predicate AllAdmit(allowed: (Remote, PyFrame) -> bool, smps: seq<Sample>) {
    forall i :: 0 <= i < |smps| ==> Admits(allowed, smps[i])
  }

  ghost predicate AllProperMemory(smps: seq<Sample>) {
    forall i :: 0 <= i < |smps| ==> ProperMemory(smps[i].mem)
  }

  lemma {:induction false} AllAdmitProper(allowed: (Remote, PyFrame) -> bool, smps: seq<Sample>)
    requires AllAdmit(allowed, smps)
    ensures AllProperMemory(smps)
  {
    hide ProperMemory;
  }

  lemma {:induction false} StartShaped()
    ensures Shaped(Start())
  {
  }

  /** What holds at the start and is kept by every step holds after every run. */
  lemma {:induction false} RunKeeps(v: Version, inv: State -> bool, allowed: (Remote, PyFrame) -> bool,
          o: Options, smps: seq<Sample>)
    requires KeptByResolving(v, inv, allowed) && KeptByEvents(inv) && inv(Start()) && AllAdmit(allowed, smps)
    ensures AllProperMemory(smps)
    ensures var r := Run(v, o, Start(), smps); Shaped(r) && inv(r)
  {
    hide KeptByResolving, KeptByEvents, Shaped, Admits, Emit, Ready, ProperMemory;
    AllAdmitProper(allowed, smps);
    StartShaped();
    if smps != [] {
      var n := |smps| - 1;
      RunKeeps(v, inv, allowed, o, smps[..n]);
      EmitKeeps(v, inv, allowed, o, Run(v, o, Start(), smps[..n]), smps[n]);
    }
  }
}
