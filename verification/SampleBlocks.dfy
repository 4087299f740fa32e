/** The shape of the output: what each sample leaves there, by its fields and the mode. */
module SampleBlocks {
  import opened Common
  import opened FrameKeys
  import opened Stacks
  import opened SamplerModel
  import opened RunInduction
  import opened SamplerRun
  import L = LruModel
  import M = MojoModel

  type Event = M.Event

  // ---- What is to be there ------------------------------------------------------------------------------

  /**
   A sample is left out if its thread is invalid, if empty samples are excluded, if nothing was measured; and
   but in full mode, if memory is asked for and there is none, or if idle threads are not and it is idle.
   */
  predicate Reported(o: Options, smp: Sample) {
    && !smp.invalid && !o.excludeEmpty
    && (smp.time != 0 || smp.memory != 0)
    && (o.full || !o.memory || smp.memory != 0)
    && (o.full || !o.sleepless || !smp.idle)
  }

  function AllReported(o: Options, smps: seq<Sample>): seq<Sample> {
    if smps == [] then []
    else AllReported(o, smps[..|smps| - 1]) + if Reported(o, smps[|smps| - 1]) then [smps[|smps| - 1]] else []
  }

  /** The collection mark and then the metrics of the mode. */
  ghost predicate Closes(o: Options, smp: Sample, es: seq<Event>) {
    var gc := o.gc && smp.collecting;
    && (gc ==> es != [] && es[0] == M.Gc)
    && var metrics := if gc && es != [] then es[1..] else es;
    && (o.whereMode ==> metrics == [])
    && (!o.whereMode && o.full && smp.idle ==>
          metrics == [M.MetricTime(smp.time), M.Idle, M.MetricMemory(smp.memory)])
    && (!o.whereMode && o.full && !smp.idle ==> metrics == [M.MetricTime(smp.time), M.MetricMemory(smp.memory)])
    && (!o.whereMode && !o.full && o.memory ==> metrics == [M.MetricMemory(smp.memory)])
    && (!o.whereMode && !o.full && !o.memory ==> metrics == [M.MetricTime(smp.time)])
  }

  /** Definitions, and marks for what went wrong. */
  predicate Front(e: Event) {
    e.StringDef? || e.Frame? || e.FrameInvalid?
  }

  ghost predicate AllFront(es: seq<Event>) {
    forall i :: 0 <= i < |es| ==> Front(es[i])
  }

  ghost predicate AllRefs(es: seq<Event>) {
    forall i :: 0 <= i < |es| ==> es[i].FrameRef?
  }

  function Faulty(es: seq<Event>): nat {
    if es == [] then 0 else Faulty(es[..|es| - 1]) + if es[|es| - 1].FrameInvalid? then 1 else 0
  }

  /** The marks there have to be, when so many frames of the stack are referred to. */
  ghost predicate FaultsDue(v: Version, smp: Sample, faults: nat, lines: nat) {
    if smp.top == 0 then faults == lines == 0
    else
      exists fs, bad ::
        && StackOf(v, smp, fs, bad) && lines <= |fs|
        && faults == if v.V311? then (if bad || lines < |fs| then 1 else 0)
                     else (if bad then 1 else 0) + if lines < |fs| then 1 else 0
  }

  /** The sample's identity, what is new in it, its frames, and its metrics. */
  ghost predicate BlockOf(v: Version, o: Options, smp: Sample, es: seq<Event>) {
    exists front, refs, metrics ::
      && es == [M.Stack(smp.pid, smp.iid, smp.tid)] + front + refs + metrics
      && AllFront(front) && AllRefs(refs) && Closes(o, smp, metrics)
      && FaultsDue(v, smp, Faulty(front), |refs|)
  }

  function Flat(blocks: seq<seq<Event>>): seq<Event> {
    if blocks == [] then [] else Flat(blocks[..|blocks| - 1]) + blocks[|blocks| - 1]
  }

  ghost predicate BlocksOf(v: Version, o: Options, smps: seq<Sample>, blocks: seq<seq<Event>>) {
    var reported := AllReported(o, smps);
    |blocks| == |reported| && forall k :: 0 <= k < |blocks| ==> BlockOf(v, o, reported[k], blocks[k])
  }

  // ---- It is there ----------------------------------------------------------------------------------------

  lemma {:induction false} ReportedExactly(o: Options, smp: Sample)
    ensures Reported(o, smp) <==> !Skips(o, smp, 0)
  {
  }

  lemma {:induction false} TailCloses(o: Options, smp: Sample)
    ensures Closes(o, smp, Tail(o, smp))
  {
    if o.gc && smp.collecting {
      assert Tail(o, smp)[1..] == Tail(o.(gc := false), smp);
    }
  }

  ghost predicate AddsMetrics(o: Options, smp: Sample, before: seq<Event>, after: seq<Event>) {
    before <= after && Closes(o, smp, after[|before|..])
  }

  lemma {:induction false} TailAdds(o: Options, smp: Sample, before: seq<Event>)
    ensures AddsMetrics(o, smp, before, before + Tail(o, smp))
  {
    hide Closes, Tail;
    TailCloses(o, smp);
    assert (before + Tail(o, smp))[|before|..] == Tail(o, smp);
  }

  predicate Defines(e: Event) {
    e.StringDef? || e.Frame?
  }

  /** Nothing but definitions was emitted since. */
  ghost predicate Extended(base: seq<Event>, out: seq<Event>) {
    base <= out && forall i :: |base| <= i < |out| ==> Defines(out[i])
  }

  ghost function Extending(base: seq<Event>): State -> bool {
    (s: State) => Extended(base, s.out)
  }

  lemma {:induction false} ExtendingKept(v: Version, base: seq<Event>)
    ensures KeptByResolving(v, Extending(base), Anything())
  {
    hide Shaped, Asked, Made, L.Store, L.Hit, Held, CacheKey;
    var inv := Extending(base);
    assert KeptByStrings(inv, Anything()) by {
      forall s, remote, f, key: Key | Shaped(s) && inv(s) && Asked(s, remote, f, key)
        ensures key in remote.strings && inv(WithString(s, key, remote.strings[key]))
      {
        AskedReadable(s, remote, f, key);
      }
    }
  }

  lemma {:induction false} ResolveDefines(v: Version, s: State, remote: Remote, fs: seq<PyFrame>)
    requires Shaped(s) && AllProper(fs)
    ensures var r := Resolve(v, s, remote, fs).0; Shaped(r) && Extended(s.out, r.out)
  {
    hide Shaped, Resolve, AllProper, KeptByResolving;
    ExtendingKept(v, s.out);
    ResolveKeeps(v, Extending(s.out), Anything(), s, remote, fs);
  }

  lemma {:induction false} DefinitionsAreFront(es: seq<Event>)
    requires forall i :: 0 <= i < |es| ==> Defines(es[i])
    ensures AllFront(es) && Faulty(es) == 0
  {
    if es != [] {
      DefinitionsAreFront(es[..|es| - 1]);
    }
  }

  lemma {:induction false} FaultyAppend(xs: seq<Event>, ys: seq<Event>)
    ensures Faulty(xs + ys) == Faulty(xs) + Faulty(ys)
  {
    if ys == [] {
      assert xs + ys == xs;
    } else {
      assert (xs + ys)[..|xs + ys| - 1] == xs + ys[..|ys| - 1];
      FaultyAppend(xs, ys[..|ys| - 1]);
    }
  }

  function MarkIf(bad: bool): seq<Event> {
    if bad then [M.FrameInvalid] else []
  }

  lemma {:induction false} MarkIsFront(bad: bool, s: State)
    ensures AllFront(MarkIf(bad)) && Faulty(MarkIf(bad)) == if bad then 1 else 0
    ensures InvalidIf(bad, s).out == s.out + MarkIf(bad)
  {
    assert [M.FrameInvalid][..0] == [];
    assert s.out + [] == s.out;
  }

  lemma {:induction false} FrontAppend(xs: seq<Event>, ys: seq<Event>, zs: seq<Event>)
    requires AllFront(xs) && AllFront(ys) && AllFront(zs)
    ensures AllFront(xs + ys + zs) && Faulty(xs + ys + zs) == Faulty(xs) + Faulty(ys) + Faulty(zs)
  {
    FaultyAppend(xs + ys, zs);
    FaultyAppend(xs, ys);
  }

  /** So does resolving one, between two marks that there may be. */
  lemma {:induction false} ResolveFront(v: Version, s: State, remote: Remote, fs: seq<PyFrame>, bad: bool, worse: bool)
    returns (front: seq<Event>)
    requires Shaped(s) && AllProper(fs) && Shaped(InvalidIf(bad, s))
    ensures InvalidIf(worse, Resolve(v, InvalidIf(bad, s), remote, fs).0).out == s.out + front
    ensures AllFront(front) && Faulty(front) == (if bad then 1 else 0) + if worse then 1 else 0
  {
    hide Shaped, Resolve, AllProper, InvalidIf, Faulty, AllFront, MarkIf;
    var s0 := InvalidIf(bad, s);
    MarkIsFront(bad, s);
    ResolveDefines(v, s0, remote, fs);
    var s1 := Resolve(v, s0, remote, fs).0;
    var defs := s1.out[|s0.out|..];
    DefinitionsAreFront(defs);
    MarkIsFront(worse, s1);
    FrontAppend(MarkIf(bad), defs, MarkIf(worse));
    front := MarkIf(bad) + defs + MarkIf(worse);
    assert s1.out == s0.out + defs;
  }

  /** Collecting a stack emits definitions, and a mark for each fault. */
  lemma {:induction false} CollectFront(v: Version, s: State, smp: Sample) returns (front: seq<Event>)
    requires Shaped(s) && ProperMemory(smp.mem)
    ensures Collect(v, s, smp).0.out == s.out + front
    ensures AllFront(front) && Faulty(front) == Faults(v, s, smp)
  {
    hide Shaped, Resolve, Proper, Unwound, ProperMemory, Invalid, Faulty, AllFront;
    if smp.top == 0 {
      front := [];
      assert s.out + [] == s.out;
      DefinitionsAreFront([]);
    } else {
      var (fs, bad) := Unwound(v, smp);
      ShapedReady(s);
      InvalidShaped(s, bad);
      if v.V311? {
        CollectOnce(v, s, smp);
        front := ResolveFront(v, s, smp.remote, fs, false, bad || |Resolve(v, s, smp.remote, fs).1| < |fs|);
      } else {
        front := ResolveFront(v, s, smp.remote, fs, bad, |Resolve(v, InvalidIf(bad, s), smp.remote, fs).1| < |fs|);
      }
    }
  }

  lemma {:induction false} RefsAreRefs(frames: seq<CodeFrame>)
    ensures AllRefs(Refs(frames)) && |Refs(frames)| == |frames|
  {
    if frames != [] {
      RefsAreRefs(frames[1..]);
    }
  }

  lemma {:induction false} CollectedFaults(v: Version, s: State, smp: Sample)
    requires Shaped(s) && ProperMemory(smp.mem)
    ensures FaultsDue(v, smp, Faults(v, s, smp), |Collect(v, s, smp).1|)
  {
    hide Shaped, Resolve, Proper, Unwound, ProperMemory, StackOf, Invalid;
    if smp.top != 0 {
      var (fs, bad) := Unwound(v, smp);
      UnwoundIsStack(v, smp);
      ShapedReady(s);
      if v.V311? {
        CollectOnce(v, s, smp);
      }
    }
  }

  /** What a sample adds to the output is its block, if it is reported, and else nothing. */
  lemma {:induction false} EmitBlock(v: Version, o: Options, s: State, smp: Sample) returns (block: seq<Event>)
    requires Shaped(s) && ProperMemory(smp.mem)
    ensures Emit(v, o, s, smp).out == s.out + block
    ensures if Reported(o, smp) then BlockOf(v, o, smp, block) else block == []
  {
    hide Shaped, Collect, ProperMemory, Refs, Tail, Skips, Faults, Reported, AllFront, AllRefs, Closes, FaultsDue,
      Faulty;
    ReportedExactly(o, smp);
    block := [];
    if Skips(o, smp, 0) {
      assert s.out + [] == s.out;
    } else {
      var s0, first := Begin(s, smp), [M.Stack(smp.pid, smp.iid, smp.tid)];
      BeginShows(s, smp);
      var front := CollectFront(v, s0, smp);
      CollectedFaults(v, s0, smp);
      var frames := Collect(v, s0, smp).1;
      RefsAreRefs(frames);
      TailCloses(o, smp);
      block := first + front + Refs(frames) + Tail(o, smp);
    }
  }

  ghost predicate AddsBlock(v: Version, o: Options, smp: Sample, before: seq<Event>, after: seq<Event>) {
    before <= after && BlockOf(v, o, smp, after[|before|..])
  }

  lemma {:induction false} EmitAddsBlock(v: Version, o: Options, s: State, smp: Sample)
    requires Shaped(s) && ProperMemory(smp.mem)
    ensures Reported(o, smp) ==> AddsBlock(v, o, smp, s.out, Emit(v, o, s, smp).out)
    ensures !Reported(o, smp) ==> Emit(v, o, s, smp) == s
  {
    hide Shaped, ProperMemory, BlockOf, Reported, Skips, Collect;
    ReportedExactly(o, smp);
    var block := EmitBlock(v, o, s, smp);
    assert (s.out + block)[|s.out|..] == block;
  }

  lemma {:induction false} FlatOneMore(blocks: seq<seq<Event>>, block: seq<Event>)
    ensures Flat(blocks + [block]) == Flat(blocks) + block
  {
    assert (blocks + [block])[..|blocks|] == blocks;
  }

  /** The output of a run is the blocks of the samples that are reported, in order. */
  lemma {:induction false} RunIsBlocks(v: Version, o: Options, smps: seq<Sample>) returns (blocks: seq<seq<Event>>)
    requires AllProperMemory(smps)
    ensures BlocksOf(v, o, smps, blocks) && Run(v, o, Start(), smps).out == Flat(blocks)
  {
    hide Shaped, ProperMemory, Emit, BlockOf, Reported, Flat;
    blocks := [];
    if smps == [] {
      RunNone(v, o, Start(), smps);
      assert Flat([]) == [] by { NothingFlat(); }
    } else {
      var n := |smps| - 1;
      blocks := RunIsBlocks(v, o, smps[..n]);
      RunSeen(v, o, smps[..n]);
      var block := EmitBlock(v, o, Run(v, o, Start(), smps[..n]), smps[n]);
      RunOneMore(v, o, Start(), smps);
      if Reported(o, smps[n]) {
        FlatOneMore(blocks, block);
        blocks := blocks + [block];
      }
    }
  }

  lemma {:induction false} NothingFlat()
    ensures Flat([]) == []
  {
  }

  /** So are the bytes. */
  lemma {:induction false} BytesAreBlocks(v: Version, o: Options, smps: seq<Sample>) returns (blocks: seq<seq<Event>>)
    requires AllProperMemory(smps)
    ensures BlocksOf(v, o, smps, blocks) && M.ParseAll(Bytes(v, o, smps)) == Some(Flat(blocks))
  {
    hide BlocksOf, Run, ProperMemory, M.EncodeAll, Flat;
    blocks := RunIsBlocks(v, o, smps);
    M.StreamRoundTrip(Run(v, o, Start(), smps).out);
  }

  // ---- What there is to add up ----------------------------------------------------------------------------

  function Times(es: seq<Event>): seq<nat> {
    if es == [] then [] else Times(es[..|es| - 1]) + if es[|es| - 1].MetricTime? then [es[|es| - 1].time] else []
  }

  function Memories(es: seq<Event>): seq<int> {
    if es == [] then []
    else Memories(es[..|es| - 1]) + if es[|es| - 1].MetricMemory? then [es[|es| - 1].memory] else []
  }

  lemma {:induction false} MetricsAppend(xs: seq<Event>, ys: seq<Event>)
    ensures Times(xs + ys) == Times(xs) + Times(ys) && Memories(xs + ys) == Memories(xs) + Memories(ys)
  {
    if ys == [] {
      assert xs + ys == xs;
    } else {
      assert (xs + ys)[..|xs + ys| - 1] == xs + ys[..|ys| - 1];
      MetricsAppend(xs, ys[..|ys| - 1]);
    }
  }

  lemma {:induction false} MetricsOne(e: Event)
    ensures Times([e]) == (if e.MetricTime? then [e.time] else [])
    ensures Memories([e]) == if e.MetricMemory? then [e.memory] else []
  {
    assert [e][..0] == [] && Times([]) == [] && Memories([]) == [];
  }

  lemma {:induction false} NoMetrics(es: seq<Event>)
    requires forall i :: 0 <= i < |es| ==> !es[i].MetricTime? && !es[i].MetricMemory?
    ensures Times(es) == [] && Memories(es) == []
  {
    if es != [] {
      NoMetrics(es[..|es| - 1]);
    }
  }

  /** The time of the sample is there in every mode but for memory, and its memory in that and in full mode. */
  function TimesOf(o: Options, smp: Sample): seq<nat> {
    if o.whereMode || (o.memory && !o.full) then [] else [smp.time]
  }

  function MemoriesOf(o: Options, smp: Sample): seq<int> {
    if !o.whereMode && (o.memory || o.full) then [smp.memory] else []
  }

  lemma {:induction false} MetricsThree(a: Event, b: Event, c: Event)
    ensures Times([a, b, c]) == Times([a]) + Times([b]) + Times([c])
    ensures Memories([a, b, c]) == Memories([a]) + Memories([b]) + Memories([c])
    ensures Times([a, b]) == Times([a]) + Times([b]) && Memories([a, b]) == Memories([a]) + Memories([b])
  {
    hide Times, Memories;
    MetricsAppend([a], [b]);
    MetricsAppend([a, b], [c]);
    assert [a] + [b] == [a, b] && [a, b] + [c] == [a, b, c];
  }

  lemma {:induction false} ClosingMetrics(o: Options, smp: Sample, es: seq<Event>)
    requires Closes(o, smp, es)
    ensures Times(es) == TimesOf(o, smp) && Memories(es) == MemoriesOf(o, smp)
  {
    hide Times, Memories;
    var gc := o.gc && smp.collecting;
    var metrics := if gc then es[1..] else es;
    NoMetrics([]);
    MetricsOne(M.Gc);
    MetricsOne(M.Idle);
    MetricsOne(M.MetricTime(smp.time));
    MetricsOne(M.MetricMemory(smp.memory));
    MetricsThree(M.MetricTime(smp.time), M.MetricMemory(smp.memory), M.Idle);
    MetricsThree(M.MetricTime(smp.time), M.Idle, M.MetricMemory(smp.memory));
    if gc {
      MetricsAppend([M.Gc], metrics);
      assert es == [M.Gc] + metrics;
    }
  }

  lemma {:induction false} BlockMetrics(v: Version, o: Options, smp: Sample, es: seq<Event>)
    requires BlockOf(v, o, smp, es)
    ensures Times(es) == TimesOf(o, smp) && Memories(es) == MemoriesOf(o, smp)
  {
    hide Times, Memories, Closes, FaultsDue, Faulty, TimesOf, MemoriesOf;
    var first := [M.Stack(smp.pid, smp.iid, smp.tid)];
    var front, refs, metrics :|
      && es == first + front + refs + metrics
      && AllFront(front) && AllRefs(refs) && Closes(o, smp, metrics)
      && FaultsDue(v, smp, Faulty(front), |refs|);
    var before := first + front + refs;
    assert Times(before) == [] && Memories(before) == [] by {
      HeadMetrics(smp, front, refs);
    }
    hide AllFront, AllRefs;
    MetricsAppend(before, metrics);
    ClosingMetrics(o, smp, metrics);
  }

  lemma {:induction false} HeadMetrics(smp: Sample, front: seq<Event>, refs: seq<Event>)
    requires AllFront(front) && AllRefs(refs)
    ensures var es := [M.Stack(smp.pid, smp.iid, smp.tid)] + front + refs; Times(es) == [] && Memories(es) == []
  {
    hide Times, Memories;
    var first := M.Stack(smp.pid, smp.iid, smp.tid);
    MetricsOne(first);
    NoMetrics(front);
    NoMetrics(refs);
    MetricsAppend([first], front);
    MetricsAppend([first] + front, refs);
  }

  function AllTimes(o: Options, smps: seq<Sample>): seq<nat> {
    if smps == [] then [] else AllTimes(o, smps[..|smps| - 1]) + TimesOf(o, smps[|smps| - 1])
  }

  function AllMemories(o: Options, smps: seq<Sample>): seq<int> {
    if smps == [] then [] else AllMemories(o, smps[..|smps| - 1]) + MemoriesOf(o, smps[|smps| - 1])
  }

  lemma {:induction false} BlocksMetrics(v: Version, o: Options, smps: seq<Sample>, blocks: seq<seq<Event>>)
    requires |blocks| == |smps| && forall k :: 0 <= k < |blocks| ==> BlockOf(v, o, smps[k], blocks[k])
    ensures Times(Flat(blocks)) == AllTimes(o, smps) && Memories(Flat(blocks)) == AllMemories(o, smps)
  {
    hide Times, Memories, BlockOf, TimesOf, MemoriesOf;
    if blocks == [] {
      NoMetrics([]);
    } else {
      var n := |blocks| - 1;
      BlocksMetrics(v, o, smps[..n], blocks[..n]);
      BlockMetrics(v, o, smps[n], blocks[n]);
      MetricsAppend(Flat(blocks[..n]), blocks[n]);
    }
  }

  /** The metrics in the bytes of a run are those of the samples that are reported, in order, each in its mode. */
  lemma {:induction false} BytesAddUp(v: Version, o: Options, smps: seq<Sample>)
    requires AllProperMemory(smps)
    ensures var es := M.ParseAll(Bytes(v, o, smps));
      && es.Some?
      && Times(es.value) == AllTimes(o, AllReported(o, smps))
      && Memories(es.value) == AllMemories(o, AllReported(o, smps))
  {
    hide Times, Memories, BlockOf, AllReported, AllTimes, AllMemories, Bytes, Flat, ProperMemory;
    var blocks := BytesAreBlocks(v, o, smps);
    BlocksMetrics(v, o, AllReported(o, smps), blocks);
  }

  // ---- Two samples, byte by byte ----------------------------------------------------------------------------

  /** A thread without frames, seen for 100 microseconds, whose process has freed five units of memory. */
  function Bare(idle: bool): Sample {
    Sample(10, 1, 31, false, idle, true, 100, -5, 0, None, map[], Remote(map[], map[]))
  }

  lemma {:induction false} BareEmits(v: Version, o: Options, idle: bool)
    requires Reported(o, Bare(idle))
    ensures AllProperMemory([Bare(idle)])
    ensures Run(v, o, Start(), [Bare(idle)]).out == [M.Stack(10, 1, 31)] + Tail(o, Bare(idle))
  {
    hide Reported;
    var smp := Bare(idle);
    ReportedExactly(o, smp);
    assert [smp][..0] == [];
    RunNone(v, o, Start(), [smp][..0]);
    RunOneMore(v, o, Start(), [smp]);
    hide Skips, Tail;
    CollectNothing(v, Begin(Start(), smp), smp);
  }

  /** In wall-clock mode; and in full mode with collections, while idle. */
  lemma {:induction false} KnownBytes(v: Version)
    ensures AllProperMemory([Bare(false)]) && AllProperMemory([Bare(true)])
    ensures Bytes(v, Options(false, false, false, false, false, false), [Bare(false)])
            == [2, 10, 1, 49, 102, 0, 9, 164, 1]
    ensures Bytes(v, Options(true, false, false, false, true, false), [Bare(true)])
            == [2, 10, 1, 49, 102, 0, 7, 9, 164, 1, 8, 10, 69]
  {
    hide Run, M.EncodeAll, M.Encode;
    M.KnownEvents();
    var wall := Options(false, false, false, false, false, false);
    var full := Options(true, false, false, false, true, false);
    BareEmits(v, wall, false);
    BareEmits(v, full, true);
    var stack, time, memory := M.Stack(10, 1, 31), M.MetricTime(100), M.MetricMemory(-5);
    assert Tail(wall, Bare(false)) == [time];
    assert Tail(full, Bare(true)) == [M.Gc, time, M.Idle, memory];
    hide Tail;
    assert [stack] + [time] == [stack, time];
    assert [stack] + [M.Gc, time, M.Idle, memory] == [stack, M.Gc, time, M.Idle, memory];
    M.EncodeTwo(stack, time);
    M.EncodeFive(stack, M.Gc, time, M.Idle, memory);
  }
}
