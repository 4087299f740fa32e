/** The sampler itself: its caches, its stack and its output file, updated in place. */
module Samplers {
  import opened Common
  import opened FrameKeys
  import opened Stacks
  import opened SamplerModel
  import opened LruCaches
  import opened Mojo
  import L = LruModel
  import LineTable
  import Lnotab
  import M = MojoModel
  import opened RunInduction
  import SamplerRun
  import SampleBlocks
  import opened MojoReader

  /** The three decoders of `_frame_from_code_raddr`. */
  method ReadTable(v: Version, code: Code, lasti: int) returns (loc: Option<Location>)
    ensures loc == Locate(v, code, lasti)
  {
    if code.table == None {
      return None;
    }
    var table, line := code.table.value, U32(code.firstLine);
    if v.V311? {
      if |table| == 0 {
        return None;
      }
      var ok, read := LineTable.ReadLocation(table + [0, 0], |table|, line, lasti);
      return Some(if ok then read else code.stray);
    }
    if |table| % 2 == 1 {
      return None;
    }
    if v.V310? {
      var read := Lnotab.ReadNewLine(table, line, lasti);
      return Some(LineTable.Location(read, line, 0, 0));
    }
    var read := Lnotab.ReadOldLine(table, line, lasti);
    return Some(LineTable.Location(read, line, 0, 0));
  }

  class Sampler {
    const frameCache: LruCache<CodeFrame>
    const stringCache: LruCache<Text>
    const stack: PyStack<CodeFrame>
    const writer: Writer
    ghost var events: seq<M.Event>  // what the output file encodes

    ghost var Repr: set<object>

    ghost predicate Valid()
      reads this, Repr
    {
      && Apart()
      && frameCache.Valid() && stringCache.Valid() && stack.Valid()
      && frameCache.capacity == MAX_FRAME_CACHE_SIZE && stringCache.capacity == 0 && stack.size == MAX_STACK_SIZE
      && writer.output == M.EncodeAll(events)
    }

    ghost predicate Apart()
      reads this, Repr
    {
      && this in Repr && {this, writer, stack, stack.base, stack.pyBase, frameCache, stringCache} <= Repr
      && frameCache.Repr <= Repr && stringCache.Repr <= Repr && frameCache.Repr !! stringCache.Repr
      && {this, writer, stack, stack.base, stack.pyBase} !! frameCache.Repr
      && {this, writer, stack, stack.base, stack.pyBase} !! stringCache.Repr
    }

    ghost function State(): State
      requires Valid()
      reads this, Repr
    {
      SamplerModel.State(frameCache.State(), stringCache.State(), events)
    }

    constructor ()
      ensures Valid() && fresh(Repr) && State() == Start() && stack.pointer == 0
    {
      hide LruCache.Valid, PyStack.Valid;
      frameCache := new LruCache(MAX_FRAME_CACHE_SIZE);
      stringCache := new LruCache(0);
      stack := new PyStack(MAX_STACK_SIZE);
      writer := new Writer();
      events := [];
      new;
      Repr := {this, writer, stack, stack.base, stack.pyBase} + frameCache.Repr + stringCache.Repr;
    }

    lemma {:induction false} IsReady()
      requires Valid()
      ensures Ready(State())
      ensures L.WellFormed(State().frames) && State().frames.limit == MAX_FRAME_CACHE_SIZE && !State().frames.expand
    {
      frameCache.StateWellFormed();
      stringCache.StateWellFormed();
    }

    lemma {:induction false} IsShaped()
      requires Valid()
      ensures Shaped(State())
    {
      frameCache.StateWellFormed();
      stringCache.StateWellFormed();
    }

    method Intern(strings: map<Key, Text>, key: Key) returns (ok: bool)
      requires Valid()
      modifies Repr
      ensures Valid() && fresh(Repr - old(Repr)) && unchanged(stack, stack.base, stack.pyBase)
      ensures old(Ready(State())) && (State(), ok) == SamplerModel.Intern(old(State()), strings, key)
    {
      hide LruCache.Valid, L.WellFormed, L.Hit, L.HitValue, L.Store, M.Encode;
      IsReady();
      L.MissChangesNothing(stringCache.State(), key);
      var text := stringCache.MaybeHit(key);
      Repr := Repr + stringCache.Repr;
      if text == None {
        if key == 0 || key !in strings {
          return false;
        }
        StoreString(key, strings[key]);
      }
      ok := true;
    }

    method StoreString(key: Key, text: Text)
      requires Valid() && key != 0 && key !in L.Keys(State().strings.pairs)
      modifies Repr
      ensures Valid() && fresh(Repr - old(Repr)) && unchanged(stack, stack.base, stack.pyBase)
      ensures old(Ready(State()))
      ensures State() == WithString(old(State()), key, text)
    {
      hide LruCache.Valid, L.WellFormed, L.Store, M.Encode;
      IsReady();
      stringCache.Store(key, text);
      Repr := Repr + stringCache.Repr;
      writer.PutStringDef(key, text);
      events := events + [M.StringDef(M.Ref(key), text)];
    }

    method FrameFromCode(v: Version, remote: Remote, addr: Key, lasti: CInt) returns (frame: Option<CodeFrame>)
      requires Valid()
      modifies Repr
      ensures Valid() && fresh(Repr - old(Repr)) && unchanged(stack, stack.base, stack.pyBase)
      ensures old(Ready(State()))
      ensures (State(), frame) == SamplerModel.FrameFromCode(v, old(State()), remote, addr, lasti)
    {
      hide Valid, SamplerModel.Intern, Locate, FrameKey;
      IsReady();
      if addr !in remote.codes {
        return None;
      }
      var code := remote.codes[addr];
      var named := Intern(remote.strings, code.filename);
      if !named {
        return None;
      }
      var scoped := Intern(remote.strings, code.scope);
      if !scoped {
        return None;
      }
      var loc := ReadTable(v, code, lasti);
      if loc == None {
        return None;
      }
      frame := Some(CodeFrame(StoredKey(v, addr, lasti), code.filename, code.scope, loc.value));
    }

    /** A hit on the frame cache, or a new frame that is stored and defined in the output. */
    method ResolveFrame(v: Version, remote: Remote, f: PyFrame) returns (frame: Option<CodeFrame>)
      requires Valid() && Proper(f)
      modifies Repr
      ensures Valid() && fresh(Repr - old(Repr)) && unchanged(stack, stack.base, stack.pyBase)
      ensures old(Ready(State())) && (State(), frame) == ResolveOne(v, old(State()), remote, f)
    {
      hide LruCache.Valid, L.WellFormed, L.Hit, L.HitValue, L.Store, M.Encode, FrameKey, SamplerModel.FrameFromCode;
      IsReady();
      var key := FrameKey(f.code, f.lasti);
      L.MissChangesNothing(frameCache.State(), key);
      frame := frameCache.MaybeHit(key);
      Repr := Repr + frameCache.Repr;
      if frame == None {
        frame := FrameFromCode(v, remote, f.code, f.lasti);
        if frame == None {
          return;
        }
        StoreFrame(key, frame.value);
      }
    }

    method StoreFrame(key: Key, frame: CodeFrame)
      requires Valid() && key != 0 && key !in L.Keys(State().frames.pairs)
      modifies Repr
      ensures Valid() && fresh(Repr - old(Repr)) && unchanged(stack, stack.base, stack.pyBase)
      ensures old(Ready(State()))
      ensures State() == WithFrame(old(State()), key, frame)
    {
      hide LruCache.Valid, L.WellFormed, L.Store, M.Encode;
      IsReady();
      frameCache.Store(key, frame);
      Repr := Repr + frameCache.Repr;
      writer.PutFrame(frame.key, frame.filename, frame.scope,
                      frame.loc.line, frame.loc.lineEnd, frame.loc.column, frame.loc.columnEnd);
      events := events + [FrameEvent(frame)];
    }

    lemma {:induction false} StackInRepr()
      requires Valid()
      ensures {this, writer, stack, stack.base, stack.pyBase} <= Repr && stack.Valid() && stack.size == MAX_STACK_SIZE
    {
      hide LruCache.Valid;
    }

    method SetSlot(i: nat, frame: CodeFrame)
      requires Valid() && i < stack.size
      modifies stack.base
      ensures Valid() && State() == old(State()) && stack.base[..] == old(stack.base[..])[i := Some(frame)]
    {
      hide LruCache.Valid, M.EncodeAll;
      stack.Set(i, frame);
    }

    method TruncateStack(n: nat)
      requires Valid() && n <= stack.pointer
      modifies stack`pointer
      ensures Valid() && State() == old(State()) && stack.Frames() == old(stack.Frames())[..n]
    {
      hide LruCache.Valid, M.EncodeAll;
      stack.Truncate(n);
    }

    /** The first slots of the stack hold these frames. */
    ghost predicate Filled(frames: seq<CodeFrame>)
      requires stack.Valid()
      reads stack, stack.base
    {
      |frames| <= stack.pointer && forall j :: 0 <= j < |frames| ==> stack.base[j] == Some(frames[j])
    }

    method ResolveSlot(v: Version, remote: Remote, i: nat, ghost frames: seq<CodeFrame>) returns (ok: bool)
      requires Valid() && i < stack.pointer && Proper(stack.pyBase[i]) && Filled(frames) && |frames| == i
      modifies Repr
      ensures Valid() && fresh(Repr - old(Repr)) && old(Ready(State()))
      ensures var (s, frame) := ResolveOne(v, old(State()), remote, old(stack.pyBase[i]));
        && State() == s && (ok <==> frame.Some?)
        && (ok ==> stack.Frames() == old(stack.Frames()) && Filled(frames + [frame.value]))
        && (!ok ==> stack.Frames() == old(stack.Frames())[..i] && Filled(frames))
    {
      hide Valid, ResolveOne, Proper, Ready;
      StackInRepr();
      var frame := ResolveFrame(v, remote, stack.pyBase[i]);
      StackInRepr();
      if frame == None {
        TruncateStack(i);
        return false;
      }
      SetSlot(i, frame.value);
      ok := true;
    }

    /** What has been resolved is on the stack. */
    method ResolvePyStack(v: Version, remote: Remote) returns (ok: bool, ghost frames: seq<CodeFrame>)
      requires Valid() && AllProper(stack.Frames())
      modifies Repr
      ensures Valid() && fresh(Repr - old(Repr)) && old(Ready(State()))
      ensures (State(), frames) == Resolve(v, old(State()), remote, old(stack.Frames()))
      ensures Filled(frames) && stack.Frames() == old(stack.Frames())[..|frames|]
      ensures ok <==> |frames| == |old(stack.Frames())|
    {
      hide Valid, ResolveOne, Resolve, Proper, Ready, AllProper;
      IsReady();
      StackInRepr();
      ghost var fs, s := stack.Frames(), State();
      frames := [];
      AllProperPrefix(fs, 0);
      ResolveNone(v, s, remote, fs[..0]);
      var i: nat := 0;
      while i < stack.pointer
        invariant Valid() && fresh(Repr - old(Repr)) && stack.Valid() && stack.Frames() == fs && i <= |fs|
        invariant AllProper(fs[..i]) && Resolve(v, s, remote, fs[..i]) == (State(), frames)
        invariant |frames| == i && Filled(frames)
      {
        ResolveStep(v, s, remote, fs, i);
        var found := ResolveSlot(v, remote, i, frames);
        if !found {
          ResolveStops(v, s, remote, fs, i + 1);
          return false, frames;
        }
        frames := Resolve(v, s, remote, fs[..i + 1]).1;
        i := i + 1;
        StackInRepr();
      }
      assert fs[..i] == fs;
      ok := true;
    }

    method Output() returns (output: seq<Byte>)
      requires Valid()
      ensures output == M.EncodeAll(State().out)
    {
      output := writer.output;
    }

    // ---- Unwinding ----------------------------------------------------------------------------------

    method Unwind(v: Version, smp: Sample) returns (bad: bool)
      requires Valid() && ProperMemory(smp.mem)
      modifies stack`pointer, stack.pyBase
      ensures Valid() && State() == old(State()) && (stack.Frames(), bad) == Unwound(v, smp)
      ensures StackOf(v, smp, stack.Frames(), bad)
    {
      hide LruCache.Valid, M.EncodeAll, Proper, StackOf;
      UnwoundIsStack(v, smp);
      if v.V311? {
        stack.Reset();
        if smp.cframe == None {
          return true;
        }
        bad := stack.UnwindIframeStack(smp.mem, smp.cframe.value);
      } else {
        bad := stack.UnwindFrameStack(smp.mem, smp.top);
      }
    }

    method EmitInvalid()
      requires Valid()
      modifies writer, `events
      ensures Valid() && State() == Invalid(old(State()))
    {
      hide LruCache.Valid, M.Encode;
      writer.PutFrameInvalid();
      events := events + [M.FrameInvalid];
    }

    /** From 3.11 on unwinding resolves the stack as well. */
    method UnwindCframeStack(v: Version, smp: Sample) returns (bad: bool, ghost kept: seq<CodeFrame>)
      requires Valid() && ProperMemory(smp.mem) && v.V311?
      modifies Repr
      ensures Valid() && fresh(Repr - old(Repr)) && old(Ready(State()))
      ensures (State(), kept) == Resolve(v, old(State()), smp.remote, Unwound(v, smp).0)
      ensures stack.Frames() == Unwound(v, smp).0[..|kept|]
      ensures bad == (Unwound(v, smp).1 || |kept| < |Unwound(v, smp).0|)
    {
      hide Valid, Resolve, Proper, AllProper, ProperMemory, Unwound, Ready;
      IsReady();
      StackInRepr();
      bad := Unwind(v, smp);
      var ok;
      ok, kept := ResolvePyStack(v, smp.remote);
      bad := !ok || bad;
    }

    method ResolveAndMark(v: Version, remote: Remote) returns (ghost frames: seq<CodeFrame>)
      requires Valid() && AllProper(stack.Frames())
      modifies Repr
      ensures Valid() && fresh(Repr - old(Repr)) && old(Ready(State()))
      ensures var fs := old(stack.Frames()); var (s, frames') := Resolve(v, old(State()), remote, fs);
        State() == InvalidIf(|frames'| < |fs|, s) && frames == frames'
      ensures Filled(frames) && stack.pointer == |frames|
    {
      hide Valid, Resolve, Proper, AllProper, Invalid, Ready;
      IsReady();
      var ok;
      ok, frames := ResolvePyStack(v, remote);
      StackInRepr();
      if !ok {
        EmitInvalid();
      }
    }

    /** Unwind the stack, resolve it, and mark the sample where either fails. */
    method CollectStack(v: Version, smp: Sample) returns (ghost frames: seq<CodeFrame>)
      requires Valid() && ProperMemory(smp.mem) && smp.top != 0
      modifies Repr
      ensures Valid() && fresh(Repr - old(Repr)) && old(Ready(State()))
      ensures (State(), frames) == Collect(v, old(State()), smp)
      ensures Filled(frames) && stack.pointer == |frames|
    {
      hide Valid, Resolve, Proper, AllProper, ProperMemory, Unwound, Invalid, Ready;
      IsReady();
      StackInRepr();
      ghost var fs := Unwound(v, smp).0;
      var bad;
      if v.V311? {
        ghost var kept;
        bad, kept := UnwindCframeStack(v, smp);
        AllProperPrefix(fs, |kept|);
      } else {
        bad := Unwind(v, smp);
      }
      StackInRepr();
      if bad {
        EmitInvalid();
      }
      frames := ResolveAndMark(v, smp.remote);
    }

    // ---- Emission -------------------------------------------------------------------------------------

    /** The frame is read here: it must not have been deallocated. */
    method EmitFrameRef(frame: CodeFrame)
      requires Valid() && SamplerRun.Live(State().frames, frame)
      modifies writer, `events
      ensures Valid() && State() == old(State()).(out := old(State()).out + [M.FrameRef(frame.key)])
    {
      hide LruCache.Valid, M.Encode;
      writer.PutFrameRef(frame.key);
      events := events + [M.FrameRef(frame.key)];
    }

    method PopFrame(ghost frames: seq<CodeFrame>) returns (frame: CodeFrame)
      requires Valid() && Filled(frames) && stack.pointer == |frames| > 0
      modifies stack`pointer
      ensures Valid() && State() == old(State())
      ensures stack.pointer == |frames| - 1 && frame == frames[|frames| - 1] && Filled(frames[..|frames| - 1])
    {
      hide LruCache.Valid, M.EncodeAll;
      var top := stack.Pop();
      frame := top.value;
    }

    method EmitStack(ghost frames: seq<CodeFrame>)
      requires Valid() && Filled(frames) && stack.pointer == |frames| && SamplerRun.AllLive(State().frames, frames)
      modifies Repr
      ensures Valid() && Repr == old(Repr) && stack.pointer == 0
      ensures State() == old(State()).(out := old(State()).out + Refs(frames))
    {
      hide Valid, SamplerRun.Live;
      ghost var s, n := State(), |frames|;
      assert frames[n..] == [] && frames[..n] == frames;
      StackInRepr();
      while stack.pointer > 0
        invariant Valid() && Repr == old(Repr) && stack.Valid() && stack.pointer == n <= |frames|
        invariant Filled(frames[..n])
        invariant State() == s.(out := s.out + Refs(frames[n..]))
      {
        StackInRepr();
        var frame := PopFrame(frames[..n]);
        EmitFrameRef(frame);
        assert frames[n - 1..][1..] == frames[n..] && frames[..n][..n - 1] == frames[..n - 1];
        n := n - 1;
        StackInRepr();
      }
      assert frames[0..] == frames;
    }

    method EmitGc()
      requires Valid()
      modifies writer, `events
      ensures Valid() && State() == old(State()).(out := old(State()).out + [M.Gc])
    {
      hide LruCache.Valid, M.Encode;
      writer.PutGc();
      events := events + [M.Gc];
    }

    method EmitIdle()
      requires Valid()
      modifies writer, `events
      ensures Valid() && State() == old(State()).(out := old(State()).out + [M.Idle])
    {
      hide LruCache.Valid, M.Encode;
      writer.PutIdle();
      events := events + [M.Idle];
    }

    method EmitTime(time: nat)
      requires Valid()
      modifies writer, `events
      ensures Valid() && State() == old(State()).(out := old(State()).out + [M.MetricTime(time)])
    {
      hide LruCache.Valid, M.Encode;
      writer.PutMetricTime(time);
      events := events + [M.MetricTime(time)];
    }

    method EmitMemory(memory: int)
      requires Valid()
      modifies writer, `events
      ensures Valid() && State() == old(State()).(out := old(State()).out + [M.MetricMemory(memory)])
    {
      hide LruCache.Valid, M.Encode;
      writer.PutMetricMemory(memory);
      events := events + [M.MetricMemory(memory)];
    }

    method EmitBegin(smp: Sample)
      requires Valid()
      modifies writer, `events
      ensures Valid() && State() == old(State()).(out := old(State()).out + [M.Stack(smp.pid, smp.iid, smp.tid)])
    {
      hide LruCache.Valid, M.Encode;
      writer.PutStack(smp.pid, smp.iid, smp.tid);
      events := events + [M.Stack(smp.pid, smp.iid, smp.tid)];
    }

    method EmitTail(o: Options, smp: Sample)
      requires Valid()
      modifies writer, `events
      ensures Valid() && State() == old(State()).(out := old(State()).out + Tail(o, smp))
      ensures SampleBlocks.AddsMetrics(o, smp, old(State()).out, State().out)
    {
      hide Valid, SampleBlocks.AddsMetrics;
      SampleBlocks.TailAdds(o, smp, State().out);
      if o.gc && smp.collecting {
        EmitGc();
      }
      if o.whereMode {
        return;
      }
      if o.full {
        EmitTime(smp.time);
        if IsIdle(o, smp) {
          EmitIdle();
        }
        EmitMemory(smp.memory);
      } else if o.memory {
        EmitMemory(smp.memory);
      } else {
        EmitTime(smp.time);
      }
    }

    /**
     One sample.  The test for an empty stack comes before the stack is unwound, when it is always empty.
     */
    method EmitCollapsedStack(v: Version, o: Options, smp: Sample)
      requires Valid() && ProperMemory(smp.mem) && stack.pointer == 0
      modifies Repr
      ensures Valid() && fresh(Repr - old(Repr)) && stack.pointer == 0
      ensures old(Ready(State())) && State() == Emit(v, o, old(State()), smp)
      ensures SampleBlocks.Reported(o, smp) ==>
        SampleBlocks.AddsBlock(v, o, smp, old(State()).out, State().out)
      ensures !SampleBlocks.Reported(o, smp) ==> State() == old(State())
    {
      hide Valid, Collect, ProperMemory, Refs, SamplerRun.AllLive, L.WellFormed, SampleBlocks.Reported,
        SampleBlocks.AddsBlock;
      IsReady();
      IsShaped();
      SampleBlocks.EmitAddsBlock(v, o, State(), smp);
      StackInRepr();
      if !o.full && o.memory && smp.memory == 0 {
        return;
      }
      if smp.invalid {
        return;
      }
      if o.excludeEmpty && stack.pointer == 0 {
        return;
      }
      if smp.memory == 0 && smp.time == 0 {
        return;
      }
      if !o.full && IsIdle(o, smp) && o.sleepless {
        return;
      }
      EmitBegin(smp);
      StackInRepr();
      IsReady();
      ghost var s0 := State();
      SamplerRun.CollectedLive(v, s0, smp);
      ghost var frames := [];
      if smp.top != 0 {
        frames := CollectStack(v, smp);
      } else {
        CollectNothing(v, s0, smp);
      }
      EmitStack(frames);
      StackInRepr();
      EmitTail(o, smp);
    }
  }

  /**
   A whole run, whatever the process does: the bytes are those of the samples that are reported, each with its
   marks and metrics; a reader of them can read every reference, and sees the samples as they were resolved while
   keys and addresses are told apart.
   */
  method Record(v: Version, o: Options, smps: seq<Sample>, ghost used: set<PyFrame>, ghost addrs: set<Key>)
    returns (output: seq<Byte>, ghost blocks: seq<seq<M.Event>>)
    requires AllProperMemory(smps)
    ensures M.ParseAll(output) == Some(SampleBlocks.Flat(blocks)) && SampleBlocks.BlocksOf(v, o, smps, blocks)
    ensures ReadBytes(output) == Some(SamplerRun.AllSeen(v, o, smps))
    ensures SamplerRun.AllTold(SamplerRun.AllSeen(v, o, smps))
    ensures SamplerRun.Reliable(smps, used, addrs) && SamplerRun.KeysApart(v, used) && SamplerRun.Injective(addrs) ==>
      SamplerRun.AllSeen(v, o, smps) == SamplerRun.AllShown(v, o, smps)
    ensures o.excludeEmpty ==> output == []
  {
    hide Sampler.Valid, Emit, Run, AllAdmit, SamplerRun.AllSeen, SamplerRun.AllShown, SamplerRun.AllTold,
      SamplerRun.Injective, SamplerRun.KeysApart, ProperMemory, M.EncodeAll, ReadBytes, M.ParseAll,
      SampleBlocks.Flat, SampleBlocks.BlocksOf;
    var sampler := new Sampler();
    RunNone(v, o, Start(), smps[..0]);
    for i := 0 to |smps|
      invariant sampler.Valid() && fresh(sampler.Repr) && sampler.stack.pointer == 0
      invariant sampler.State() == Run(v, o, Start(), smps[..i])
    {
      RunOneMore(v, o, Start(), smps[..i + 1]);
      assert smps[..i + 1][..i] == smps[..i];
      sampler.EmitCollapsedStack(v, o, smps[i]);
    }
    assert smps[..|smps|] == smps;
    blocks := SampleBlocks.BytesAreBlocks(v, o, smps);
    SamplerRun.BytesSeen(v, o, smps);
    SamplerRun.AllSeenTold(v, o, smps);
    if SamplerRun.Reliable(smps, used, addrs) && SamplerRun.KeysApart(v, used) && SamplerRun.Injective(addrs) {
      SamplerRun.RunShows(v, o, smps, used, addrs);
    }
    output := sampler.Output();
    if o.excludeEmpty {
      ExcludeEmptyExcludesAll(v, o, Start(), smps);
      NothingEncoded();
    }
  }

  lemma {:induction false} NothingEncoded()
    ensures M.EncodeAll([]) == []
  {
  }
}
