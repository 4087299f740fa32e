/** Whole runs of the sampler, and what a reader of their output sees. */
module SamplerRun {
  import opened Common
  import opened FrameKeys
  import opened Stacks
  import opened SamplerModel
  import opened RunInduction
  import opened MojoReader
  import L = LruModel
  import M = MojoModel

  // ---- What is read of a sample -------------------------------------------------------------------------

  function Marks(es: seq<M.Event>): seq<Item> {
    seq(|es|, i requires 0 <= i < |es| => Mark(es[i]))
  }

  /** References as they read with these definitions, from the outermost frame to the top. */
  function Read(t: Tables, frames: seq<CodeFrame>): seq<Item> {
    if frames == [] then [] else Read(t, frames[1..]) + [Line(LookUp(t, frames[0].key))]
  }

  /** How many times the sample is marked invalid. */
  ghost function Faults(v: Version, s: State, smp: Sample): nat
    requires Ready(s) && ProperMemory(smp.mem)
  {
    if smp.top == 0 then 0
    else
      var (fs, bad) := Unwound(v, smp);
      var cut := |Collect(v, s, smp).1| < |fs|;
      if v.V311? then (if bad || cut then 1 else 0) else (if bad then 1 else 0) + if cut then 1 else 0
  }

  /** A sample with these faults and these lines. */
  function Report(o: Options, smp: Sample, faults: nat, lines: seq<Item>): seq<Item> {
    [Mark(M.Stack(smp.pid, smp.iid, smp.tid))] + seq(faults, _ => Mark(M.FrameInvalid)) + lines + Marks(Tail(o, smp))
  }

  /** What a reader sees of the sample, with the definitions that the output has by then. */
  ghost function Seen(v: Version, o: Options, s: State, smp: Sample): seq<Item>
    requires Ready(s) && ProperMemory(smp.mem)
  {
    if Skips(o, smp, 0) then []
    else
      var s0 := Begin(s, smp);
      var (s1, frames) := Collect(v, s0, smp);
      Report(o, smp, Faults(v, s0, smp), Read(Defined(s1.out), frames))
  }

  ghost function AllSeen(v: Version, o: Options, smps: seq<Sample>): seq<Item>
    requires AllProperMemory(smps)
  {
    if smps == [] then []
    else
      var n := |smps| - 1;
      AllSeen(v, o, smps[..n]) + Seen(v, o, Run(v, o, Start(), smps[..n]), smps[n])
  }

  // ---- Resolving shows nothing ----------------------------------------------------------------------------

  ghost function Silent(items: seq<Item>): State -> bool {
    (s: State) => Items(s.out) == items
  }

  ghost function Anything(): (Remote, PyFrame) -> bool {
    (remote: Remote, f: PyFrame) => true
  }

  lemma {:induction false} DefinitionIsSilent(es: seq<M.Event>, e: M.Event)
    requires !Quiet(e)
    ensures Items(es + [e]) == Items(es)
  {
    hide Defined, Items;
    OneMore(es, e);
    assert Items(es) + [] == Items(es);
  }

  lemma {:induction false} SilentKept(v: Version, items: seq<Item>)
    ensures KeptByResolving(v, Silent(items), Anything())
  {
    hide Shaped, Items, Asked, Made, L.Store, L.Hit, Held, CacheKey;
    var inv := Silent(items);
    assert KeptByStrings(inv, Anything()) by {
      forall s, remote, f, key: Key | Shaped(s) && inv(s) && Asked(s, remote, f, key)
        ensures key in remote.strings && inv(WithString(s, key, remote.strings[key]))
      {
        AskedReadable(s, remote, f, key);
        DefinitionIsSilent(s.out, M.StringDef(M.Ref(key), remote.strings[key]));
      }
    }
    assert KeptByFrames(v, inv, Anything()) by {
      forall s, remote, f, frame | Shaped(s) && inv(s) && Made(v, s, remote, f, frame)
        ensures inv(WithFrame(s, CacheKey(f), frame))
      {
        DefinitionIsSilent(s.out, FrameEvent(frame));
      }
    }
  }

  lemma {:induction false} AskedReadable(s: State, remote: Remote, f: PyFrame, key: Key)
    requires Asked(s, remote, f, key)
    ensures f.code in remote.codes && key != 0 && key in remote.strings && !Held(s.strings, key)
    ensures key == remote.codes[f.code].filename || key == remote.codes[f.code].scope
  {
  }

  lemma {:induction false} ResolveIsSilent(v: Version, s: State, remote: Remote, fs: seq<PyFrame>)
    requires Shaped(s) && AllProper(fs)
    ensures var r := Resolve(v, s, remote, fs).0; Shaped(r) && Items(r.out) == Items(s.out)
  {
    hide Shaped, Resolve, Items, AllProper, KeptByResolving;
    var inv := Silent(Items(s.out));
    SilentKept(v, Items(s.out));
    ResolveKeeps(v, inv, Anything(), s, remote, fs);
  }

  predicate Plain(e: M.Event) {
    Quiet(e) && !e.FrameRef?
  }

  lemma {:induction false} PlainShows(es: seq<M.Event>, plain: seq<M.Event>)
    requires forall i :: 0 <= i < |plain| ==> Plain(plain[i])
    ensures Items(es + plain) == Items(es) + Marks(plain) && Defined(es + plain) == Defined(es)
  {
    hide Items, Defined;
    if plain == [] {
      assert es + plain == es;
    } else {
      var n := |plain| - 1;
      PlainShows(es, plain[..n]);
      OneMore(es + plain[..n], plain[n]);
      assert es + plain == es + plain[..n] + [plain[n]];
      assert Marks(plain) == Marks(plain[..n]) + [Mark(plain[n])];
    }
  }

  lemma {:induction false} InvalidShows(bad: bool, s: State)
    ensures var r := InvalidIf(bad, s);
      && Items(r.out) == Items(s.out) + seq(if bad then 1 else 0, _ => Mark(M.FrameInvalid))
      && Defined(r.out) == Defined(s.out)
  {
    hide Items, Defined;
    if bad {
      PlainShows(s.out, [M.FrameInvalid]);
      assert Marks([M.FrameInvalid]) == [Mark(M.FrameInvalid)];
    }
  }

  lemma {:induction false} InvalidShaped(s: State, bad: bool)
    requires Shaped(s)
    ensures Shaped(InvalidIf(bad, s))
  {
    hide L.WellFormed;
  }

  lemma {:induction false} CollectShows(v: Version, s: State, smp: Sample)
    requires Shaped(s) && ProperMemory(smp.mem)
    ensures var r := Collect(v, s, smp).0;
      Shaped(r) && Items(r.out) == Items(s.out) + seq(Faults(v, s, smp), _ => Mark(M.FrameInvalid))
  {
    hide Shaped, Resolve, Items, Proper, Unwound, ProperMemory, InvalidIf;
    if smp.top == 0 {
      assert Items(s.out) + [] == Items(s.out);
    } else {
      var (fs, bad) := Unwound(v, smp);
      ShapedReady(s);
      if v.V311? {
        CollectOnce(v, s, smp);
      } else {
        InvalidShows(bad, s);
        InvalidShaped(s, bad);
      }
      var s0 := if v.V311? then s else InvalidIf(bad, s);
      ResolveIsSilent(v, s0, smp.remote, fs);
      var (s1, frames) := Resolve(v, s0, smp.remote, fs);
      var worse := if v.V311? then bad || |frames| < |fs| else |frames| < |fs|;
      InvalidShows(worse, s1);
      InvalidShaped(s1, worse);
    }
  }

  /** References read as the frames they refer to. */
  lemma {:induction false} RefsRead(es: seq<M.Event>, frames: seq<CodeFrame>)
    ensures Items(es + Refs(frames)) == Items(es) + Read(Defined(es), frames)
    ensures Defined(es + Refs(frames)) == Defined(es)
  {
    hide Items, Defined, LookUp;
    if frames == [] {
      assert es + [] == es;
    } else {
      var before := es + Refs(frames[1..]);
      RefsRead(es, frames[1..]);
      OneMore(before, M.FrameRef(frames[0].key));
      assert es + Refs(frames) == before + [M.FrameRef(frames[0].key)];
    }
  }

  lemma {:induction false} BeginShows(s: State, smp: Sample)
    requires Shaped(s)
    ensures var r := Begin(s, smp);
      && Shaped(r) && Items(r.out) == Items(s.out) + [Mark(M.Stack(smp.pid, smp.iid, smp.tid))]
      && Defined(r.out) == Defined(s.out)
  {
    hide Items, Defined, L.WellFormed;
    var first := M.Stack(smp.pid, smp.iid, smp.tid);
    PlainShows(s.out, [first]);
    assert Marks([first]) == [Mark(first)];
  }

  lemma {:induction false} TailPlain(o: Options, smp: Sample)
    ensures forall i :: 0 <= i < |Tail(o, smp)| ==> Plain(Tail(o, smp)[i])
  {
  }

  /** A sample adds to what has been read what is seen of it, and nothing read before changes. */
  lemma {:induction false} EmitSeen(v: Version, o: Options, s: State, smp: Sample)
    requires Shaped(s) && ProperMemory(smp.mem)
    ensures Items(Emit(v, o, s, smp).out) == Items(s.out) + Seen(v, o, s, smp)
  {
    hide Shaped, Items, Defined, ProperMemory, Collect, Refs, Faults, Tail, Plain, Skips, Read, Begin, Ready;
    if Skips(o, smp, 0) {
      assert Items(s.out) + [] == Items(s.out);
    } else {
      var s0 := Begin(s, smp);
      BeginShows(s, smp);
      CollectShows(v, s0, smp);
      var (s1, frames) := Collect(v, s0, smp);
      RefsRead(s1.out, frames);
      TailPlain(o, smp);
      PlainShows(s1.out + Refs(frames), Tail(o, smp));
    }
  }

  lemma {:induction false} EmitShaped(v: Version, o: Options, s: State, smp: Sample)
    requires Shaped(s) && ProperMemory(smp.mem)
    ensures Shaped(Emit(v, o, s, smp))
  {
    hide Shaped, ProperMemory, Collect, Refs, Tail, Skips, Quiet, Ready;
    if !Skips(o, smp, 0) {
      BeginShows(s, smp);
      CollectShows(v, Begin(s, smp), smp);
      var (s1, frames) := Collect(v, Begin(s, smp), smp);
      OutShaped(s1, s1.out + Refs(frames) + Tail(o, smp));
    }
  }

  lemma {:induction false} OutShaped(s: State, out: seq<M.Event>)
    requires Shaped(s)
    ensures Shaped(s.(out := out))
  {
    hide L.WellFormed;
  }

  lemma {:induction false} RunSeen(v: Version, o: Options, smps: seq<Sample>)
    requires AllProperMemory(smps)
    ensures var r := Run(v, o, Start(), smps); Shaped(r) && Items(r.out) == AllSeen(v, o, smps)
  {
    hide Shaped, Items, ProperMemory, Emit, Seen, Ready;
    StartShaped();
    if smps == [] {
      assert Items([]) == [] by { NothingRead(); }
    } else {
      var n := |smps| - 1;
      RunSeen(v, o, smps[..n]);
      EmitSeen(v, o, Run(v, o, Start(), smps[..n]), smps[n]);
      EmitShaped(v, o, Run(v, o, Start(), smps[..n]), smps[n]);
    }
  }

  lemma {:induction false} NothingRead()
    ensures Items([]) == [] && Defined([]) == Tables(map[], map[])
  {
  }

  // ---- Live frames ----------------------------------------------------------------------------------------

  /** Every frame is held by the cache. */
  ghost predicate AllLive(c: L.Lru<CodeFrame>, frames: seq<CodeFrame>) {
    forall i :: 0 <= i < |frames| ==> Live(c, frames[i])
  }

  ghost predicate Live(c: L.Lru<CodeFrame>, frame: CodeFrame) {
    exists key :: L.Pair(key, frame) in c.pairs
  }

  lemma {:induction false} ResolvedLive(v: Version, s: State, remote: Remote, fs: seq<PyFrame>)
    requires Ready(s) && L.WellFormed(s.frames) && AllProper(fs) && |fs| <= s.frames.limit
    ensures var (r, frames) := Resolve(v, s, remote, fs); AllLive(r.frames, frames)
  {
    hide Resolve, Proper, CacheKey, L.WellFormed;
    var (r, frames) := Resolve(v, s, remote, fs);
    forall i | 0 <= i < |frames| ensures Live(r.frames, frames[i]) {
      ResolvedFramesLive(v, s, remote, fs, i);
      var key := CacheKey(fs[i]);
      assert L.Pair(key, frames[i]) in r.frames.pairs;
    }
  }

  /** Every frame about to be emitted is one the cache still holds. */
  lemma {:induction false} CollectedLive(v: Version, s: State, smp: Sample)
    requires Ready(s) && L.WellFormed(s.frames) && ProperMemory(smp.mem) && s.frames.limit >= MAX_STACK_SIZE
    ensures var (r, frames) := Collect(v, s, smp); AllLive(r.frames, frames)
  {
    hide Resolve, Proper, Unwound, ProperMemory, Live, L.WellFormed;
    if smp.top != 0 {
      var (fs, bad) := Unwound(v, smp);
      ResolvedLive(v, if v.V311? then s else InvalidIf(bad, s), smp.remote, fs);
      if v.V311? {
        CollectOnce(v, s, smp);
      }
    }
  }

  // ---- Every reference reads ------------------------------------------------------------------------------

  /**
   Whatever is cached is defined, every definition of a frame can be read in full, and follows those of its
   strings.
   */
  ghost predicate Founded(s: State) {
    && Grounded(s.out)
    && (forall p :: p in s.strings.pairs ==> M.Ref(p.key) in Defined(s.out).strings)
    && (forall p :: p in s.frames.pairs ==> p.value.key in Defined(s.out).frames)
    && forall key :: key in Defined(s.out).frames ==> LookUp(Defined(s.out), key).Some?
  }

  ghost function Foundation(): State -> bool {
    (s: State) => Founded(s)
  }

  lemma {:induction false} HeldFounded(s: State, key: Key)
    requires Founded(s) && Held(s.strings, key)
    ensures M.Ref(key) in Defined(s.out).strings
  {
    assert s.strings.pairs[L.IndexOf(s.strings.pairs, key)] in s.strings.pairs;
  }

  lemma {:induction false} WithStringFounded(s: State, key: Key, text: Text)
    requires Shaped(s) && Founded(s) && !Held(s.strings, key) && key != 0
    ensures Founded(WithString(s, key, text))
  {
    hide L.WellFormed, L.Store, Grounded, Defined, Held;
    var def := M.StringDef(M.Ref(key), text);
    StoreKeeps(s.strings, key, text);
    OneMore(s.out, def);
    GroundedMore(s.out, [def]);
    var t, t' := Defined(s.out), Defined(s.out + [def]);
    forall k | k in t'.frames ensures LookUp(t', k).Some? {
      assert LookUp(t, k).Some?;
    }
  }

  lemma {:induction false} WithFrameFounded(s: State, key: Key, frame: CodeFrame)
    requires Shaped(s) && Founded(s) && key !in L.Keys(s.frames.pairs) && key != 0
    requires Held(s.strings, frame.filename) && Held(s.strings, frame.scope)
    ensures Founded(WithFrame(s, key, frame))
  {
    hide L.WellFormed, L.Store, Grounded, Defined, Held;
    var e := FrameEvent(frame);
    HeldFounded(s, frame.filename);
    HeldFounded(s, frame.scope);
    FrameStoreMembers(s.frames, key, frame);
    OneMore(s.out, e);
    GroundedFrame(s.out, e);
    var t, t' := Defined(s.out), Defined(s.out + [e]);
    forall k | k in t'.frames ensures LookUp(t', k).Some? {
      assert k in t.frames ==> LookUp(t, k).Some?;
    }
  }

  lemma {:induction false} LookupsFounded(s: State, key: Key)
    requires Shaped(s) && Founded(s)
    ensures Held(s.strings, key) ==> Founded(s.(strings := L.Hit(s.strings, key)))
    ensures key in L.Keys(s.frames.pairs) ==> Founded(s.(frames := L.Hit(s.frames, key)))
  {
    hide L.WellFormed, L.Hit, Grounded, Defined, Held, LookUp;
    if Held(s.strings, key) {
      HitKeeps(s.strings, key);
    }
    if key in L.Keys(s.frames.pairs) {
      FrameHitMembers(s.frames, key);
    }
  }

  lemma {:induction false} QuietDefines(es: seq<M.Event>, quiet: seq<M.Event>)
    requires AllQuiet(quiet)
    ensures Defined(es + quiet) == Defined(es)
  {
    hide Defined;
    if quiet == [] {
      assert es + quiet == es;
    } else {
      var n := |quiet| - 1;
      QuietDefines(es, quiet[..n]);
      OneMore(es + quiet[..n], quiet[n]);
      assert es + quiet == es + quiet[..n] + [quiet[n]];
    }
  }

  lemma {:induction false} EventsFounded(s: State, es: seq<M.Event>)
    requires Founded(s) && AllQuiet(es)
    ensures Founded(s.(out := s.out + es))
  {
    hide Grounded, Defined, LookUp;
    QuietDefines(s.out, es);
    GroundedMore(s.out, es);
  }

  lemma {:induction false} FoundationKept(v: Version)
    ensures KeptByResolving(v, Foundation(), Anything()) && KeptByEvents(Foundation())
  {
    hide Shaped, Founded, L.Hit, Held, CacheKey, WithString, WithFrame, AllQuiet, Asked, Made, Proper;
    var inv := Foundation();
    assert KeptByLookups(inv) by {
      forall s, key | Shaped(s) && inv(s)
        ensures Held(s.strings, key) ==> inv(s.(strings := L.Hit(s.strings, key)))
        ensures key in L.Keys(s.frames.pairs) ==> inv(s.(frames := L.Hit(s.frames, key)))
      {
        LookupsFounded(s, key);
      }
    }
    assert KeptByStrings(inv, Anything()) by {
      forall s, remote, f, key: Key | Shaped(s) && inv(s) && Asked(s, remote, f, key)
        ensures key in remote.strings && inv(WithString(s, key, remote.strings[key]))
      {
        AskedReadable(s, remote, f, key);
        WithStringFounded(s, key, remote.strings[key]);
      }
    }
    assert KeptByFrames(v, inv, Anything()) by {
      forall s, remote, f, frame | Shaped(s) && inv(s) && Made(v, s, remote, f, frame)
        ensures inv(WithFrame(s, CacheKey(f), frame))
      {
        MadeHeld(v, s, remote, f, frame);
        WithFrameFounded(s, CacheKey(f), frame);
      }
    }
    forall s, es | Shaped(s) && inv(s) && AllQuiet(es) ensures inv(s.(out := s.out + es)) {
      EventsFounded(s, es);
    }
  }

  lemma {:induction false} MadeHeld(v: Version, s: State, remote: Remote, f: PyFrame, frame: CodeFrame)
    requires Made(v, s, remote, f, frame)
    ensures Held(s.strings, frame.filename) && Held(s.strings, frame.scope)
    ensures CacheKey(f) !in L.Keys(s.frames.pairs) && CacheKey(f) != 0
    ensures f.code in remote.codes && MakeFrame(v, f.code, remote.codes[f.code], f.lasti) == Some(frame)
  {
    hide FrameKey, Locate;
  }

  /** Everything has been read in full. */
  ghost predicate AllTold(items: seq<Item>) {
    forall i :: 0 <= i < |items| && items[i].Line? ==> items[i].row.Some?
  }

  lemma {:induction false} ReadTold(s: State, frames: seq<CodeFrame>)
    requires Founded(s) && AllLive(s.frames, frames)
    ensures AllTold(Read(Defined(s.out), frames))
  {
    hide Founded, LookUp, Live;
    if frames != [] {
      ReadTold(s, frames[1..]);
      LiveFounded(s, frames[0]);
    }
  }

  lemma {:induction false} LiveFounded(s: State, frame: CodeFrame)
    requires Founded(s) && Live(s.frames, frame)
    ensures LookUp(Defined(s.out), frame.key).Some?
  {
    hide Grounded, Defined, LookUp;
    var key :| L.Pair(key, frame) in s.frames.pairs;
  }

  lemma {:induction false} FoundedAtStart()
    ensures Founded(Start())
  {
  }

  /** After any part of a sample. */
  lemma {:induction false} CollectFounded(v: Version, s: State, smp: Sample)
    requires Shaped(s) && Founded(s) && ProperMemory(smp.mem)
    ensures var s1 := Collect(v, Begin(s, smp), smp).0; Founded(s1)
  {
    hide Shaped, Founded, Proper, Collect, KeptByResolving, KeptByEvents;
    FoundationKept(v);
    assert Admits(Anything(), smp);
    BeginKeeps(Foundation(), s, smp);
    CollectKeeps(v, Foundation(), Anything(), Begin(s, smp), smp);
  }

  lemma {:induction false} SeenTold(v: Version, o: Options, s: State, smp: Sample)
    requires Shaped(s) && Founded(s) && ProperMemory(smp.mem)
    ensures AllTold(Seen(v, o, s, smp))
  {
    hide Shaped, Founded, Collect, ProperMemory, Faults, Read, Tail, Skips;
    if !Skips(o, smp, 0) {
      var s0 := Begin(s, smp);
      CollectFounded(v, s, smp);
      BeginShows(s, smp);
      ShapedReady(s0);
      CollectedLive(v, s0, smp);
      var (s1, frames) := Collect(v, s0, smp);
      ReadTold(s1, frames);
    }
  }

  lemma {:induction false} RunFounded(v: Version, o: Options, smps: seq<Sample>)
    requires AllProperMemory(smps)
    ensures var r := Run(v, o, Start(), smps); Shaped(r) && Founded(r)
  {
    hide Shaped, Founded, ProperMemory, Run, KeptByResolving, KeptByEvents;
    FoundationKept(v);
    FoundedAtStart();
    assert AllAdmit(Anything(), smps) by { AnythingAdmitted(smps); }
    RunKeeps(v, Foundation(), Anything(), o, smps);
  }

  lemma {:induction false} AnythingAdmitted(smps: seq<Sample>)
    requires AllProperMemory(smps)
    ensures AllAdmit(Anything(), smps)
  {
    hide ProperMemory;
  }

  /**
   In the output of every run each frame event follows definitions of both its strings, and each reference
   follows a frame event that it can be read from.
   */
  lemma {:induction false} EveryReferenceReads(v: Version, o: Options, smps: seq<Sample>)
    requires AllProperMemory(smps)
    ensures Grounded(Run(v, o, Start(), smps).out)
    ensures AllTold(Items(Run(v, o, Start(), smps).out))
  {
    hide Shaped, ProperMemory, Run, Items, AllSeen, Grounded;
    RunSeen(v, o, smps);
    RunFounded(v, o, smps);
    AllSeenTold(v, o, smps);
  }

  lemma {:induction false} AllSeenTold(v: Version, o: Options, smps: seq<Sample>)
    requires AllProperMemory(smps)
    ensures AllTold(AllSeen(v, o, smps))
  {
    hide Shaped, Founded, ProperMemory, Run, Seen;
    if smps != [] {
      var n := |smps| - 1;
      AllSeenTold(v, o, smps[..n]);
      RunFounded(v, o, smps[..n]);
      SeenTold(v, o, Run(v, o, Start(), smps[..n]), smps[n]);
    }
  }

  // ---- When the reader agrees with the sampler --------------------------------------------------------------

  /** String addresses are told apart by the 27 bits that references keep. */
  ghost predicate Injective(addrs: set<Key>) {
    forall a, b :: a in addrs && b in addrs && a != 0 && b != 0 && M.Ref(a) == M.Ref(b) ==> a == b
  }

  /** The key a frame is stored under. */
  function Stored(v: Version, f: PyFrame): Key {
    StoredKey(v, f.code, f.lasti)
  }

  /** Frames that are stored under the same key are cached under the same key. */
  ghost predicate KeysApart(v: Version, used: set<PyFrame>) {
    forall f, g :: f in used && g in used && Stored(v, f) == Stored(v, g) ==> CacheKey(f) == CacheKey(g)
  }

  /** They are, unless on 3.10 an instruction does not fit 15 bits, so that its double does not fit 16. */
  lemma {:induction false} ShortKeysApart(v: Version, used: set<PyFrame>)
    requires v.V310? ==> forall f :: f in used ==> -0x8000 <= f.lasti < 0x8000
    ensures KeysApart(v, used)
  {
    hide FrameKey;
    if v.V310? {
      forall f, g | f in used && g in used && Stored(v, f) == Stored(v, g) ensures CacheKey(f) == CacheKey(g) {
        DoubledKeysAgree(f.code, f.lasti, g.code, g.lasti);
      }
    }
  }

  ghost predicate StringKnown(t: Tables, p: L.Pair<Text>, addrs: set<Key>) {
    p.key in addrs && p.key != 0 && M.Ref(p.key) in t.strings && t.strings[M.Ref(p.key)] == p.value
  }

  /** Some frame in use is cached under the one key and stored under the other. */
  ghost predicate Keyed(v: Version, used: set<PyFrame>, key: Key, stored: Key) {
    exists f :: f in used && CacheKey(f) == key && Stored(v, f) == stored
  }

  ghost predicate FrameKnown(v: Version, t: Tables, used: set<PyFrame>, strings: L.Lru<Text>, p: L.Pair<CodeFrame>) {
    && Keyed(v, used, p.key, p.value.key)
    && Held(strings, p.value.filename) && Held(strings, p.value.scope)
    && p.value.key in t.frames && t.frames[p.value.key] == FrameEvent(p.value)
  }

  ghost predicate StringsKnown(t: Tables, strings: L.Lru<Text>, addrs: set<Key>) {
    forall p :: p in strings.pairs ==> StringKnown(t, p, addrs)
  }

  /** The reader's tables agree with both caches. */
  ghost predicate Tracks(v: Version, s: State, used: set<PyFrame>, addrs: set<Key>) {
    && StringsKnown(Defined(s.out), s.strings, addrs)
    && forall p :: p in s.frames.pairs ==> FrameKnown(v, Defined(s.out), used, s.strings, p)
  }

  ghost function Tracking(v: Version, used: set<PyFrame>, addrs: set<Key>): State -> bool {
    (s: State) => Tracks(v, s, used, addrs)
  }

  ghost predicate NamesIn(remote: Remote, addrs: set<Key>) {
    forall a :: a in remote.codes ==> remote.codes[a].filename in addrs && remote.codes[a].scope in addrs
  }

  /** Frames in use, with strings among these addresses. */
  ghost function Among(used: set<PyFrame>, addrs: set<Key>): (Remote, PyFrame) -> bool {
    (remote: Remote, f: PyFrame) => f in used && NamesIn(remote, addrs)
  }

  lemma {:induction false} StoredStringKnown(t: Tables, p: L.Pair<Text>, key: Key, text: Text, addrs: set<Key>)
    requires Injective(addrs) && key in addrs && key != 0
    requires p == L.Pair(key, text) || (StringKnown(t, p, addrs) && p.key != key)
    ensures StringKnown(Define(t, M.StringDef(M.Ref(key), text)), p, addrs)
  {
  }

  lemma {:induction false} FrameKnownExtends(v: Version, t: Tables, t': Tables, used: set<PyFrame>,
          s: L.Lru<Text>, r: L.Lru<Text>, p: L.Pair<CodeFrame>)
    requires FrameKnown(v, t, used, s, p) && Extends(s, r)
    requires p.value.key in t'.frames && t'.frames[p.value.key] == t.frames[p.value.key]
    ensures FrameKnown(v, t', used, r, p)
  {
    hide Held, Keyed;
    HeldExtends(s, r, p.value.filename);
    HeldExtends(s, r, p.value.scope);
  }

  /** A string that is read keeps the reader's strings in step, and hides no other. */
  lemma {:induction false} WithStringTracks(v: Version, s: State, used: set<PyFrame>, addrs: set<Key>, key: Key,
          text: Text)
    requires Shaped(s) && Tracks(v, s, used, addrs) && Injective(addrs)
    requires key in addrs && key != 0 && !Held(s.strings, key)
    ensures Tracks(v, WithString(s, key, text), used, addrs)
  {
    hide L.WellFormed, L.Store, Held, Injective, StringKnown, FrameKnown, Defined;
    StoreKeeps(s.strings, key, text);
    OneMore(s.out, M.StringDef(M.Ref(key), text));
    var r := WithString(s, key, text);
    forall p | p in r.strings.pairs ensures StringKnown(Defined(r.out), p, addrs) {
      StoredStringKnown(Defined(s.out), p, key, text, addrs);
    }
    forall p | p in r.frames.pairs ensures FrameKnown(v, Defined(r.out), used, r.strings, p) {
      KnownDefined(v, Defined(s.out), used, s.strings, p);
      FrameKnownExtends(v, Defined(s.out), Defined(r.out), used, s.strings, r.strings, p);
    }
  }

  lemma {:induction false} KnownDefined(v: Version, t: Tables, used: set<PyFrame>, strings: L.Lru<Text>,
          p: L.Pair<CodeFrame>)
    requires FrameKnown(v, t, used, strings, p)
    ensures p.value.key in t.frames
  {
  }

  lemma {:induction false} OtherFrameKnown(v: Version, t: Tables, used: set<PyFrame>, s: L.Lru<Text>,
          p: L.Pair<CodeFrame>, f: PyFrame, frame: CodeFrame)
    requires KeysApart(v, used) && f in used && frame.key == Stored(v, f)
    requires FrameKnown(v, t, used, s, p) && p.key != CacheKey(f)
    ensures FrameKnown(v, Define(t, FrameEvent(frame)), used, s, p)
  {
    hide Held, CacheKey, Stored;
    var g :| g in used && CacheKey(g) == p.key && Stored(v, g) == p.value.key;
  }

  lemma {:induction false} NewFrameKnown(v: Version, t: Tables, used: set<PyFrame>, s: L.Lru<Text>, f: PyFrame,
          frame: CodeFrame)
    requires f in used && frame.key == Stored(v, f) && Held(s, frame.filename) && Held(s, frame.scope)
    ensures FrameKnown(v, Define(t, FrameEvent(frame)), used, s, L.Pair(CacheKey(f), frame))
  {
    hide Held, CacheKey, Stored;
  }

  /** A stored frame is defined at once, over no definition of another cached frame. */
  lemma {:induction false} WithFrameTracks(v: Version, s: State, used: set<PyFrame>, addrs: set<Key>, f: PyFrame,
          frame: CodeFrame)
    requires Shaped(s) && Tracks(v, s, used, addrs) && KeysApart(v, used) && f in used
    requires CacheKey(f) !in L.Keys(s.frames.pairs) && CacheKey(f) != 0
    requires frame.key == Stored(v, f) && Held(s.strings, frame.filename) && Held(s.strings, frame.scope)
    ensures Tracks(v, WithFrame(s, CacheKey(f), frame), used, addrs)
  {
    hide L.WellFormed, L.Store, Held, StringKnown, FrameKnown, Defined, CacheKey, Stored, KeysApart;
    var e := FrameEvent(frame);
    FrameStoreMembers(s.frames, CacheKey(f), frame);
    OneMore(s.out, e);
    StringsKnownFrame(Defined(s.out), s.strings, addrs, e);
    var r := WithFrame(s, CacheKey(f), frame);
    NewFrameKnown(v, Defined(s.out), used, s.strings, f, frame);
    forall p | p in r.frames.pairs ensures FrameKnown(v, Defined(r.out), used, r.strings, p) {
      if p != L.Pair(CacheKey(f), frame) {
        OtherFrameKnown(v, Defined(s.out), used, s.strings, p, f, frame);
      }
    }
  }

  lemma {:induction false} StringsKnownFrame(t: Tables, s: L.Lru<Text>, addrs: set<Key>, e: M.Event)
    requires StringsKnown(t, s, addrs) && e.Frame?
    ensures StringsKnown(Define(t, e), s, addrs)
  {
    forall p | p in s.pairs ensures StringKnown(Define(t, e), p, addrs) {
      assert StringKnown(t, p, addrs);
    }
  }

  lemma {:induction false} LookupsTrack(v: Version, s: State, used: set<PyFrame>, addrs: set<Key>, key: Key)
    requires Shaped(s) && Tracks(v, s, used, addrs)
    ensures Held(s.strings, key) ==> Tracks(v, s.(strings := L.Hit(s.strings, key)), used, addrs)
    ensures key in L.Keys(s.frames.pairs) ==> Tracks(v, s.(frames := L.Hit(s.frames, key)), used, addrs)
  {
    hide L.WellFormed, L.Hit, Held, StringKnown, FrameKnown, Defined;
    var t := Defined(s.out);
    if Held(s.strings, key) {
      HitKeeps(s.strings, key);
      var r := L.Hit(s.strings, key);
      forall p | p in s.frames.pairs ensures FrameKnown(v, t, used, r, p) {
        KnownDefined(v, t, used, s.strings, p);
        FrameKnownExtends(v, t, t, used, s.strings, r, p);
      }
    }
    if key in L.Keys(s.frames.pairs) {
      FrameHitMembers(s.frames, key);
    }
  }

  lemma {:induction false} EventsTrack(v: Version, s: State, used: set<PyFrame>, addrs: set<Key>, es: seq<M.Event>)
    requires Tracks(v, s, used, addrs) && AllQuiet(es)
    ensures Tracks(v, s.(out := s.out + es), used, addrs)
  {
    hide Defined, StringKnown, FrameKnown;
    QuietDefines(s.out, es);
  }

  /** All steps keep the reader in step, when keys and addresses are told apart. */
  lemma {:induction false} TrackingKept(v: Version, used: set<PyFrame>, addrs: set<Key>)
    requires KeysApart(v, used) && Injective(addrs)
    ensures KeptByResolving(v, Tracking(v, used, addrs), Among(used, addrs))
    ensures KeptByEvents(Tracking(v, used, addrs))
  {
    hide Shaped, Tracks, L.Hit, Held, CacheKey, WithString, WithFrame, AllQuiet, Asked, Made, Proper, KeysApart,
      Injective, StoredKey;
    var inv, allowed := Tracking(v, used, addrs), Among(used, addrs);
    assert KeptByLookups(inv) by {
      forall s, key | Shaped(s) && inv(s)
        ensures Held(s.strings, key) ==> inv(s.(strings := L.Hit(s.strings, key)))
        ensures key in L.Keys(s.frames.pairs) ==> inv(s.(frames := L.Hit(s.frames, key)))
      {
        LookupsTrack(v, s, used, addrs, key);
      }
    }
    assert KeptByStrings(inv, allowed) by {
      forall s, remote, f, key: Key | Shaped(s) && inv(s) && allowed(remote, Spot(f)) && Asked(s, remote, f, key)
        ensures key in remote.strings && inv(WithString(s, key, remote.strings[key]))
      {
        AskedReadable(s, remote, f, key);
        WithStringTracks(v, s, used, addrs, key, remote.strings[key]);
      }
    }
    assert KeptByFrames(v, inv, allowed) by {
      forall s, remote, f, frame | Shaped(s) && inv(s) && allowed(remote, Spot(f)) && Made(v, s, remote, f, frame)
        ensures inv(WithFrame(s, CacheKey(f), frame))
      {
        MadeHeld(v, s, remote, f, frame);
        SpotKeys(v, f);
        MadeKey(v, f, remote.codes[f.code], frame);
        WithFrameTracks(v, s, used, addrs, Spot(f), frame);
      }
    }
    forall s, es | Shaped(s) && inv(s) && AllQuiet(es) ensures inv(s.(out := s.out + es)) {
      EventsTrack(v, s, used, addrs, es);
    }
  }

  lemma {:induction false} SpotKeys(v: Version, f: PyFrame)
    ensures CacheKey(Spot(f)) == CacheKey(f) && Stored(v, Spot(f)) == Stored(v, f)
  {
  }

  lemma {:induction false} MadeKey(v: Version, f: PyFrame, code: Code, frame: CodeFrame)
    requires MakeFrame(v, f.code, code, f.lasti) == Some(frame)
    ensures frame.key == Stored(v, f) && frame.filename == code.filename && frame.scope == code.scope
  {
    hide FrameKey, Locate;
  }

  // ---- What the sampler has resolved ------------------------------------------------------------------------

  function TextOr(strings: L.Lru<Text>, key: Key): M.Text {
    match L.HitValue(strings, key)
    case None => []
    case Some(text) => text
  }

  /** What a frame says, its strings being those the sampler has cached for it. */
  function RowOf(strings: L.Lru<Text>, f: CodeFrame): Row {
    Row(TextOr(strings, f.filename), TextOr(strings, f.scope), f.loc.line, f.loc.lineEnd, f.loc.column, f.loc.columnEnd)
  }

  /** From the outermost frame to the top. */
  function Lines(strings: L.Lru<Text>, frames: seq<CodeFrame>): seq<Item> {
    if frames == [] then [] else Lines(strings, frames[1..]) + [Line(Some(RowOf(strings, frames[0])))]
  }

  /** The sample as it was resolved: each frame of the stack written out where it is referred to. */
  ghost function Shown(v: Version, o: Options, s: State, smp: Sample): seq<Item>
    requires Ready(s) && ProperMemory(smp.mem)
  {
    if Skips(o, smp, 0) then []
    else
      var s0 := Begin(s, smp);
      var (s1, frames) := Collect(v, s0, smp);
      Report(o, smp, Faults(v, s0, smp), Lines(s1.strings, frames))
  }

  ghost function AllShown(v: Version, o: Options, smps: seq<Sample>): seq<Item>
    requires AllProperMemory(smps)
  {
    if smps == [] then []
    else
      var n := |smps| - 1;
      AllShown(v, o, smps[..n]) + Shown(v, o, Run(v, o, Start(), smps[..n]), smps[n])
  }

  lemma {:induction false} TextKnown(t: Tables, s: L.Lru<Text>, addrs: set<Key>, key: Key)
    requires StringsKnown(t, s, addrs) && Held(s, key)
    ensures M.Ref(key) in t.strings && t.strings[M.Ref(key)] == TextOr(s, key)
  {
    assert StringKnown(t, s.pairs[L.IndexOf(s.pairs, key)], addrs);
  }

  lemma {:induction false} LookUpKnown(v: Version, s: State, used: set<PyFrame>, addrs: set<Key>, frame: CodeFrame)
    requires Tracks(v, s, used, addrs) && Live(s.frames, frame)
    ensures LookUp(Defined(s.out), frame.key) == Some(RowOf(s.strings, frame))
  {
    hide Defined, StringsKnown, TextOr, Keyed;
    var key :| L.Pair(key, frame) in s.frames.pairs;
    assert FrameKnown(v, Defined(s.out), used, s.strings, L.Pair(key, frame));
    TextKnown(Defined(s.out), s.strings, addrs, frame.filename);
    TextKnown(Defined(s.out), s.strings, addrs, frame.scope);
  }

  /** References to live frames read as those frames. */
  lemma {:induction false} RefsShow(v: Version, s: State, used: set<PyFrame>, addrs: set<Key>, frames: seq<CodeFrame>)
    requires Tracks(v, s, used, addrs) && AllLive(s.frames, frames)
    ensures Read(Defined(s.out), frames) == Lines(s.strings, frames)
  {
    hide Tracks, Live, Defined, LookUp, RowOf;
    if frames != [] {
      RefsShow(v, s, used, addrs, frames[1..]);
      LookUpKnown(v, s, used, addrs, frames[0]);
    }
  }

  /** What is seen of a sample is what was resolved. */
  lemma {:induction false} EmitShows(v: Version, o: Options, s: State, smp: Sample, used: set<PyFrame>, addrs: set<Key>)
    requires Shaped(s) && Tracks(v, s, used, addrs) && Admits(Among(used, addrs), smp)
    requires KeysApart(v, used) && Injective(addrs)
    ensures Seen(v, o, s, smp) == Shown(v, o, s, smp)
  {
    hide Shaped, Tracks, Admits, KeysApart, Injective, Collect, Faults, Read, Lines, Skips, Report, KeptByResolving,
      KeptByEvents;
    var inv, allowed := Tracking(v, used, addrs), Among(used, addrs);
    AdmitsProper(allowed, smp);
    if !Skips(o, smp, 0) {
      var s0 := Begin(s, smp);
      TrackingKept(v, used, addrs);
      BeginKeeps(inv, s, smp);
      CollectKeeps(v, inv, allowed, s0, smp);
      ShapedReady(s0);
      CollectedLive(v, s0, smp);
      var (s1, frames) := Collect(v, s0, smp);
      RefsShow(v, s1, used, addrs, frames);
    }
  }

  // ---- Runs -----------------------------------------------------------------------------------------------

  /** Every sample of the run finds frames in use, and strings among these addresses. */
  ghost predicate Reliable(smps: seq<Sample>, used: set<PyFrame>, addrs: set<Key>) {
    AllAdmit(Among(used, addrs), smps)
  }

  lemma {:induction false} ReliableProper(smps: seq<Sample>, used: set<PyFrame>, addrs: set<Key>)
    requires Reliable(smps, used, addrs)
    ensures AllProperMemory(smps)
  {
    AllAdmitProper(Among(used, addrs), smps);
  }

  lemma {:induction false} TracksAtStart(v: Version, used: set<PyFrame>, addrs: set<Key>)
    ensures Tracks(v, Start(), used, addrs)
  {
  }

  lemma {:induction false} RunTracks(v: Version, o: Options, smps: seq<Sample>, used: set<PyFrame>, addrs: set<Key>)
    requires Reliable(smps, used, addrs) && KeysApart(v, used) && Injective(addrs)
    ensures AllProperMemory(smps)
    ensures var r := Run(v, o, Start(), smps); Shaped(r) && Tracks(v, r, used, addrs)
  {
    hide Shaped, Tracks, AllAdmit, KeysApart, Injective, Run, KeptByResolving, KeptByEvents, ProperMemory;
    TrackingKept(v, used, addrs);
    TracksAtStart(v, used, addrs);
    RunKeeps(v, Tracking(v, used, addrs), Among(used, addrs), o, smps);
  }

  /**
   Over any run, whatever the process does between samples, while frames with different cache keys have
   different stored keys and strings different references: a reader sees the samples as they were resolved.
   */
  lemma {:induction false} RunShows(v: Version, o: Options, smps: seq<Sample>, used: set<PyFrame>, addrs: set<Key>)
    requires Reliable(smps, used, addrs) && KeysApart(v, used) && Injective(addrs)
    ensures AllProperMemory(smps) && AllSeen(v, o, smps) == AllShown(v, o, smps)
  {
    hide Shaped, Tracks, Admits, KeysApart, Injective, Run, Seen, Shown, ProperMemory;
    ReliableProper(smps, used, addrs);
    if smps != [] {
      var n := |smps| - 1;
      RunShows(v, o, smps[..n], used, addrs);
      RunTracks(v, o, smps[..n], used, addrs);
      EmitShows(v, o, Run(v, o, Start(), smps[..n]), smps[n], used, addrs);
    }
  }

  /** The bytes of the run. */
  ghost function Bytes(v: Version, o: Options, smps: seq<Sample>): seq<Byte>
    requires AllProperMemory(smps)
  {
    M.EncodeAll(Run(v, o, Start(), smps).out)
  }

  /** A reader of the bytes sees each sample in turn, with the definitions that precede it. */
  lemma {:induction false} BytesSeen(v: Version, o: Options, smps: seq<Sample>)
    requires AllProperMemory(smps)
    ensures ReadBytes(Bytes(v, o, smps)) == Some(AllSeen(v, o, smps))
  {
    hide Items, Run, AllSeen, ProperMemory, M.EncodeAll;
    RunSeen(v, o, smps);
    M.StreamRoundTrip(Run(v, o, Start(), smps).out);
  }

  /** The bytes of the run show the samples as they were resolved. */
  ghost predicate Shows(v: Version, o: Options, smps: seq<Sample>) {
    AllProperMemory(smps) && ReadBytes(Bytes(v, o, smps)) == Some(AllShown(v, o, smps))
  }

  lemma {:induction false} BytesShow(v: Version, o: Options, smps: seq<Sample>, used: set<PyFrame>, addrs: set<Key>)
    requires Reliable(smps, used, addrs) && KeysApart(v, used) && Injective(addrs)
    ensures Shows(v, o, smps)
  {
    hide AllAdmit, KeysApart, Injective, AllSeen, AllShown, ProperMemory, Bytes;
    RunShows(v, o, smps, used, addrs);
    BytesSeen(v, o, smps);
  }
}
