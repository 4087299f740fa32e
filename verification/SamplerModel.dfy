/**
 A run of the sampler in binary mode, as a value: one process, no native frames.  Samples are unwound,
 resolved through the caches and written as MOJO events.
 */
module SamplerModel {
  import opened Common
  import opened FrameKeys
  import opened Stacks
  import L = LruModel
  import M = MojoModel
  import LineTable
  import Lnotab

  type Location = LineTable.Location
  type Text = M.Text

  datatype Version = Old | V310 | V311

  /** A readable code object.  `stray` stands for what a malformed table makes the decoder read past its end. */
  datatype Code = Code(filename: Key, scope: Key, firstLine: nat, table: Option<seq<Byte>>, stray: Location)

  /** The code objects and strings that can be read now; nothing can be read at NULL. */
  datatype Remote = Remote(codes: map<Key, Code>, strings: map<Key, Text>)

  /** `frame_t`: in binary mode the strings are the addresses they were read at. */
  datatype CodeFrame = CodeFrame(key: Key, filename: Key, scope: Key, loc: Location)

  datatype State = State(frames: L.Lru<CodeFrame>, strings: L.Lru<Text>, out: seq<M.Event>)

  ghost predicate Ready(s: State) {
    0 < s.frames.limit && 0 < s.strings.limit
  }

  // ---- Making a frame -------------------------------------------------------------------------------

  function Locate(v: Version, code: Code, lasti: int): Option<Location> {
    match code.table
    case None => None
    case Some(table) =>
      var line := U32(code.firstLine);
      if v.V311? then
        if table == [] then None
        else
          match LineTable.Decode(table + [0, 0], |table|, 0, 0, LineTable.Location(line, line, 0, 0), lasti)
          case None => Some(code.stray)
          case Some(loc) => Some(loc)
      else if |table| % 2 == 1 then None
      else if v.V310? then Some(LineTable.Location(Lnotab.NewLine(table, 0, line, Int32(2 * lasti)), line, 0, 0))
      else Some(LineTable.Location(Lnotab.OldLine(table, 0, line, lasti), line, 0, 0))
  }

  /** The key written in the frame; on 3.10 `lasti` has been doubled by then. */
  function StoredKey(v: Version, code: Key, lasti: CInt): Key
  {
    FrameKey(code, if v.V310? then Int32(2 * lasti) else lasti)
  }

  function MakeFrame(v: Version, addr: Key, code: Code, lasti: CInt): Option<CodeFrame>
  {
    match Locate(v, code, lasti)
    case None => None
    case Some(loc) => Some(CodeFrame(StoredKey(v, addr, lasti), code.filename, code.scope, loc))
  }

  /** An instruction that fits 15 bits is in the low 16 of the key, doubled on 3.10; the strings are the code's. */
  lemma {:induction false} MadeOfCode(v: Version, addr: Key, code: Code, lasti: CInt)
    requires 0 <= lasti < 0x8000 && MakeFrame(v, addr, code, lasti).Some?
    ensures var frame := MakeFrame(v, addr, code, lasti).value;
      && frame.key == addr % 0x800_0000 * 0x1_0000 + (if v.V310? then 2 * lasti else lasti)
      && frame.filename == code.filename && frame.scope == code.scope
  {
    hide FrameKey, Locate;
    KeyForm(addr, lasti);
    KeyForm(addr, 2 * lasti);
  }

  /** A string that is read is cached and defined in the output. */
  function WithString(s: State, key: Key, text: Text): (r: State)
    requires Ready(s)
    ensures Ready(r)
  {
    s.(strings := L.Store(s.strings, key, text), out := s.out + [M.StringDef(M.Ref(key), text)])
  }

  /** The string at an address: from the cache, or read, cached and defined. */
  function Intern(s: State, strings: map<Key, Text>, key: Key): (r: (State, bool))
    requires Ready(s)
    ensures Ready(r.0) && r.0.frames == s.frames
  {
    if L.HitValue(s.strings, key).Some? then (s.(strings := L.Hit(s.strings, key)), true)
    else if key == 0 || key !in strings then (s, false)
    else (WithString(s, key, strings[key]), true)
  }

  /** Strings that were interned stay so even if the frame cannot be made. */
  function FrameFromCode(v: Version, s: State, remote: Remote, addr: Key, lasti: CInt): (r: (State, Option<CodeFrame>))
    requires Ready(s)
    ensures Ready(r.0) && r.0.frames == s.frames
  {
    if addr !in remote.codes then (s, None)
    else
      var code := remote.codes[addr];
      var (s1, named) := Intern(s, remote.strings, code.filename);
      if !named then (s1, None)
      else
        var (s2, scoped) := Intern(s1, remote.strings, code.scope);
        if !scoped then (s2, None) else (s2, MakeFrame(v, addr, code, lasti))
  }

  function FrameEvent(frame: CodeFrame): M.Event {
    M.Frame(frame.key, M.Ref(frame.filename), M.Ref(frame.scope),
            frame.loc.line, frame.loc.lineEnd, frame.loc.column, frame.loc.columnEnd)
  }

  /** So is a frame that is made. */
  function WithFrame(s: State, key: Key, frame: CodeFrame): (r: State)
    requires Ready(s)
    ensures Ready(r)
  {
    s.(frames := L.Store(s.frames, key, frame), out := s.out + [FrameEvent(frame)])
  }

  /** The cache relies on nonzero keys. */
  ghost predicate Proper(f: PyFrame) {
    FrameKey(f.code, f.lasti) != 0
  }

  ghost predicate AllProper(fs: seq<PyFrame>) {
    forall i :: 0 <= i < |fs| ==> Proper(fs[i])
  }

  lemma {:induction false} AllProperInit(fs: seq<PyFrame>)
    requires AllProper(fs) && fs != []
    ensures AllProper(fs[..|fs| - 1]) && Proper(fs[|fs| - 1])
  {
    hide Proper;
  }

  function CacheKey(f: PyFrame): Key
  {
    FrameKey(f.code, f.lasti)
  }

  // ---- Resolving a stack ----------------------------------------------------------------------------

  function ResolveOne(v: Version, s: State, remote: Remote, f: PyFrame): (r: (State, Option<CodeFrame>))
    requires Ready(s) && Proper(f)
    ensures Ready(r.0)
  {
    var key := CacheKey(f);
    match L.HitValue(s.frames, key)
    case Some(frame) => (s.(frames := L.Hit(s.frames, key)), Some(frame))
    case None =>
      var (s1, made) := FrameFromCode(v, s, remote, f.code, f.lasti);
      match made
      case None => (s1, None)
      case Some(frame) => (WithFrame(s1, key, frame), Some(frame))
  }

  /** The stack is truncated where a frame cannot be resolved. */
  function Resolve(v: Version, s: State, remote: Remote, fs: seq<PyFrame>): (r: (State, seq<CodeFrame>))
    requires Ready(s) && AllProper(fs)
    ensures Ready(r.0) && |r.1| <= |fs|
  {
    if fs == [] then (s, [])
    else
      var n := |fs| - 1;
      var (s1, frames) := Resolve(v, s, remote, fs[..n]);
      if |frames| < n then (s1, frames)
      else
        var (s2, frame) := ResolveOne(v, s1, remote, fs[n]);
        match frame
        case None => (s2, frames)
        case Some(fr) => (s2, frames + [fr])
  }

  lemma {:induction false} AllProperPrefix(fs: seq<PyFrame>, n: nat)
    requires AllProper(fs) && n <= |fs|
    ensures AllProper(fs[..n])
  {
    hide Proper;
  }

  lemma {:induction false} ResolveStep(v: Version, s: State, remote: Remote, fs: seq<PyFrame>, i: nat)
    requires Ready(s) && AllProper(fs) && i < |fs|
    ensures AllProper(fs[..i]) && AllProper(fs[..i + 1]) && Proper(fs[i])
    ensures var (s1, before) := Resolve(v, s, remote, fs[..i]);
      |before| == i ==>
        var (s2, frame) := ResolveOne(v, s1, remote, fs[i]);
        Resolve(v, s, remote, fs[..i + 1]) == (s2, if frame.Some? then before + [frame.value] else before)
  {
    hide ResolveOne, Proper, Ready;
    AllProperPrefix(fs, i);
    AllProperPrefix(fs, i + 1);
    assert fs[..i + 1][..i] == fs[..i];
  }

  lemma {:induction false} ResolveNone(v: Version, s: State, remote: Remote, fs: seq<PyFrame>)
    requires Ready(s) && fs == [] && AllProper(fs)
    ensures Resolve(v, s, remote, fs) == (s, [])
  {
  }

  /** What comes after a frame that cannot be resolved does not matter. */
  lemma {:induction false} ResolveStops(v: Version, s: State, remote: Remote, fs: seq<PyFrame>, n: nat)
    requires Ready(s) && AllProper(fs) && n <= |fs|
    requires AllProper(fs[..n]) && |Resolve(v, s, remote, fs[..n]).1| < n
    ensures Resolve(v, s, remote, fs) == Resolve(v, s, remote, fs[..n])
  {
    hide ResolveOne, Proper, AllProper, Ready;
    if n == |fs| {
      assert fs[..n] == fs;
    } else {
      var m := |fs| - 1;
      AllProperInit(fs);
      assert fs[..m][..n] == fs[..n];
      ResolveStops(v, s, remote, fs[..m], n);
    }
  }

  // ---- The cache during a resolution ----------------------------------------------------------------

  /** The frames resolved, as uses of the frame cache. */
  function Uses(fs: seq<PyFrame>, frames: seq<CodeFrame>): (us: seq<L.Use<CodeFrame>>)
    requires AllProper(fs) && |frames| <= |fs|
    ensures |us| == |frames|
  {
    seq(|frames|, i requires 0 <= i < |frames| => L.Use(CacheKey(fs[i]), frames[i]))
  }

  lemma {:induction false} UsesKeys(fs: seq<PyFrame>, frames: seq<CodeFrame>)
    requires AllProper(fs) && |frames| <= |fs|
    ensures 0 !in L.UseKeys(Uses(fs, frames))
  {
  }

  lemma {:induction false} UsesOfNone(c: L.Lru<CodeFrame>, fs: seq<PyFrame>, frames: seq<CodeFrame>)
    requires 0 < c.limit && fs == [] && frames == [] && AllProper(fs)
    ensures L.AccessAll(c, Uses(fs, frames)) == c
  {
  }

  lemma {:induction false} UsesOneMore(fs: seq<PyFrame>, frames: seq<CodeFrame>, frame: CodeFrame)
    requires AllProper(fs) && |frames| == |fs| - 1
    ensures AllProper(fs[..|frames|])
    ensures Uses(fs, frames + [frame]) ==
            Uses(fs[..|frames|], frames) + [L.Use(CacheKey(fs[|frames|]), frame)]
  {
  }

  lemma {:induction false} UsesOfPrefix(fs: seq<PyFrame>, frames: seq<CodeFrame>, n: nat)
    requires AllProper(fs) && |frames| <= n <= |fs|
    ensures AllProper(fs[..n]) && Uses(fs, frames) == Uses(fs[..n], frames)
  {
  }

  lemma {:induction false} ResolveOneIsAccess(v: Version, s: State, remote: Remote, f: PyFrame)
    requires Ready(s) && Proper(f)
    ensures var (s', frame) := ResolveOne(v, s, remote, f);
      && (frame.None? ==> s'.frames == s.frames)
      && (frame.Some? ==>
            && s'.frames == L.Access(s.frames, CacheKey(f), frame.value)
            && L.AccessValue(s.frames, CacheKey(f), frame.value) == frame.value)
  {
    hide FrameKey, FrameFromCode, L.Store, L.Hit;
  }

  /**
   Codes with the same reference share their keys: while the frame of one is cached, the other resolves
   to it.
   */
  lemma {:induction false} SharedKeyHits(v: Version, s: State, remote: Remote, a: Key, f: PyFrame, frame: CodeFrame)
    requires Ready(s) && L.WellFormed(s.frames) && Proper(f) && M.Ref(a) == M.Ref(f.code)
    requires L.Pair(FrameKey(a, f.lasti), frame) in s.frames.pairs
    ensures ResolveOne(v, s, remote, f).1 == Some(frame)
  {
    var key := CacheKey(f);
    assert key == FrameKey(a, f.lasti);
    hide FrameKey, FrameFromCode, L.Store, L.Hit;
    L.FindPair(s.frames.pairs, s.frames.pairs, L.Pair(key, frame));
  }

  /** Resolving a stack is a run of hits and stores on the frame cache. */
  lemma {:induction false} ResolveIsPass(v: Version, s: State, remote: Remote, fs: seq<PyFrame>)
    requires Ready(s) && AllProper(fs)
    ensures var (s', frames) := Resolve(v, s, remote, fs); var us := Uses(fs, frames);
      && s'.frames == L.AccessAll(s.frames, us)
      && forall i :: 0 <= i < |frames| ==> L.ResultAt(s.frames, us, i) == frames[i]
  {
    hide ResolveOne, L.Access, L.AccessValue, L.AccessAll, L.ResultAt, CacheKey, Proper, AllProper, Uses;
    if fs == [] {
      UsesOfNone(s.frames, fs, []);
    } else {
      var n := |fs| - 1;
      AllProperInit(fs);
      var (s1, before) := Resolve(v, s, remote, fs[..n]);
      ResolveIsPass(v, s, remote, fs[..n]);
      UsesOfPrefix(fs, before, n);
      if |before| == n {
        ResolveOneIsAccess(v, s1, remote, fs[n]);
        var (s2, frame) := ResolveOne(v, s1, remote, fs[n]);
        if frame.Some? {
          UsesOneMore(fs, before, frame.value);
          L.AccessAllOneMore(s.frames, Uses(fs[..n], before), L.Use(CacheKey(fs[n]), frame.value));
        }
      }
    }
  }

  /**
   In a stack no taller than the frame cache every frame resolved is still in the cache, under its own
   key, when the whole stack has been resolved: nothing the pass evicts is a frame of the pass.
   */
  lemma {:induction false} ResolvedFramesLive(v: Version, s: State, remote: Remote, fs: seq<PyFrame>, i: nat)
    requires Ready(s) && AllProper(fs) && L.WellFormed(s.frames) && |fs| <= s.frames.limit
    requires i < |Resolve(v, s, remote, fs).1|
    ensures var (s', frames) := Resolve(v, s, remote, fs); L.Pair(CacheKey(fs[i]), frames[i]) in s'.frames.pairs
  {
    hide Resolve, CacheKey;
    var frames := Resolve(v, s, remote, fs).1;
    ResolveIsPass(v, s, remote, fs);
    UsesKeys(fs, frames);
    L.PassKeepsResults(s.frames, Uses(fs, frames), i);
  }

  lemma {:induction false} AccessFrees(c: L.Lru<CodeFrame>, key: Key, frame: CodeFrame)
    requires 0 < c.limit && (c.expand || |c.pairs| != c.limit || key in L.Keys(c.pairs))
    ensures L.Access(c, key, frame).freed == c.freed
  {
  }

  /** What the last use of a pass that fits evicts was cached under no key used before it. */
  lemma {:induction false} LastUseFrees(c: L.Lru<CodeFrame>, us: seq<L.Use<CodeFrame>>, use: L.Use<CodeFrame>, i: nat)
    requires L.WellFormed(c) && !c.expand && |us| < c.limit && i < |us| && 0 !in L.UseKeys(us + [use])
    ensures var d, e := L.AccessAll(c, us), L.AccessAll(c, us + [use]);
      e.freed == d.freed
      || (d.pairs != [] && e.freed == d.freed + [d.pairs[|d.pairs| - 1].value]
          && d.pairs[|d.pairs| - 1].key != us[i].key)
  {
    hide L.WellFormed, L.AccessAll, L.Access;
    var all := us + [use];
    var d := L.AccessAll(c, us);
    L.WellFormedKeys(c);
    L.AccessAllOneMore(c, us, use);
    assert all[..|us|] == us && all[..|all|] == all && all[|us|] == use;
    if d.expand || |d.pairs| != d.limit || use.key in L.Keys(d.pairs) {
      AccessFrees(d, use.key, use.made);
    } else {
      L.EvictsNoKeyUsed(c, all, i, |us|);
      L.WellFormedKeys(d) by { PassWellFormed(c, us, use); }
    }
  }

  lemma {:induction false} PassWellFormed(c: L.Lru<CodeFrame>, us: seq<L.Use<CodeFrame>>, use: L.Use<CodeFrame>)
    requires L.WellFormed(c) && 0 !in L.UseKeys(us + [use])
    ensures L.WellFormed(L.AccessAll(c, us))
  {
    hide L.WellFormed, L.AccessAll;
    assert L.UseKeys(us + [use])[..|us|] == L.UseKeys(us);
    L.RunIsRecency(c, us);
  }

  /**
   Nor is any of them deallocated on the way: what the cache evicts for one frame of the stack was cached
   under no key of the frames resolved before it.
   */
  lemma {:induction false} FreesNoFrameOfStack(v: Version, s: State, remote: Remote, fs: seq<PyFrame>, i: nat, n: nat)
    requires Ready(s) && AllProper(fs) && L.WellFormed(s.frames) && !s.frames.expand && |fs| <= s.frames.limit
    requires i < n < |Resolve(v, s, remote, fs).1|
    ensures AllProper(fs[..n]) && AllProper(fs[..n + 1])
    ensures var c, d := Resolve(v, s, remote, fs[..n]).0.frames, Resolve(v, s, remote, fs[..n + 1]).0.frames;
      d.freed == c.freed
      || (c.pairs != [] && d.freed == c.freed + [c.pairs[|c.pairs| - 1].value]
          && c.pairs[|c.pairs| - 1].key != CacheKey(fs[i]))
  {
    hide Resolve, Proper, AllProper, CacheKey, L.WellFormed, L.AccessAll, L.UseKeys;
    AllProperPrefix(fs, n);
    AllProperPrefix(fs, n + 1);
    var us, use := PassOfPrefix(v, s, remote, fs, n);
    LastUseFrees(s.frames, us, use, i);
  }

  /** Resolving one more frame is one more use of the cache. */
  lemma {:induction false} PassOfPrefix(v: Version, s: State, remote: Remote, fs: seq<PyFrame>, n: nat)
    returns (us: seq<L.Use<CodeFrame>>, use: L.Use<CodeFrame>)
    requires Ready(s) && AllProper(fs) && n < |Resolve(v, s, remote, fs).1|
    ensures AllProper(fs[..n]) && AllProper(fs[..n + 1])
    ensures |us| == n && 0 !in L.UseKeys(us + [use])
    ensures Resolve(v, s, remote, fs[..n]).0.frames == L.AccessAll(s.frames, us)
    ensures Resolve(v, s, remote, fs[..n + 1]).0.frames == L.AccessAll(s.frames, us + [use])
    ensures forall i :: 0 <= i < n ==> us[i].key == CacheKey(fs[i])
  {
    hide Resolve, Proper, AllProper, CacheKey, Uses, L.ResultAt, L.AccessAll, L.UseKeys;
    var m := n + 1;
    AllProperPrefix(fs, n);
    AllProperPrefix(fs, m);
    ResolvedPrefix(v, s, remote, fs, n);
    ResolvedPrefix(v, s, remote, fs, m);
    var before, frames := Resolve(v, s, remote, fs[..n]).1, Resolve(v, s, remote, fs[..m]).1;
    ResolveIsPass(v, s, remote, fs[..n]);
    ResolveIsPass(v, s, remote, fs[..m]);
    ResolveStep(v, s, remote, fs, n);
    us, use := Uses(fs[..n], before), L.Use(CacheKey(fs[n]), frames[n]);
    assert fs[..m][..n] == fs[..n] && frames == before + [frames[n]];
    UsesOneMore(fs[..m], before, frames[n]);
    UsesKeys(fs[..m], frames);
    forall i | 0 <= i < n ensures us[i].key == CacheKey(fs[i]) {
      UsesAt(fs[..n], before, i);
    }
  }

  lemma {:induction false} UsesAt(fs: seq<PyFrame>, frames: seq<CodeFrame>, i: nat)
    requires AllProper(fs) && i < |frames| <= |fs|
    ensures Uses(fs, frames)[i] == L.Use(CacheKey(fs[i]), frames[i])
  {
  }

  lemma {:induction false} ResolvedPrefix(v: Version, s: State, remote: Remote, fs: seq<PyFrame>, n: nat)
    requires Ready(s) && AllProper(fs) && n <= |Resolve(v, s, remote, fs).1|
    ensures AllProper(fs[..n]) && |Resolve(v, s, remote, fs[..n]).1| == n
  {
    hide Resolve, Proper, AllProper;
    AllProperPrefix(fs, n);
    if |Resolve(v, s, remote, fs[..n]).1| < n {
      ResolveStops(v, s, remote, fs, n);
    }
  }

  /** Every use of the pass hits, and gets the frame listed for it. */
  ghost predicate AllHit(c: L.Lru<CodeFrame>, us: seq<L.Use<CodeFrame>>)
    requires 0 < c.limit
  {
    forall k :: 0 <= k < |us| ==>
      us[k].key in L.Keys(L.AccessAll(c, us[..k]).pairs) && L.ResultAt(c, us, k) == us[k].made
  }

  lemma {:induction false} AllHitOneMore(c: L.Lru<CodeFrame>, us: seq<L.Use<CodeFrame>>, use: L.Use<CodeFrame>)
    requires 0 < c.limit && AllHit(c, us + [use])
    ensures AllHit(c, us)
    ensures var d := L.AccessAll(c, us);
      && L.AccessAll(c, us + [use]) == L.Access(d, use.key, use.made)
      && use.key in L.Keys(d.pairs) && L.AccessValue(d, use.key, use.made) == use.made
  {
    hide L.Access, L.AccessValue, L.AccessAll, L.ResultAt;
    L.AccessAllOneMore(c, us, use);
    forall k | 0 <= k < |us|
      ensures us[k].key in L.Keys(L.AccessAll(c, us[..k]).pairs) && L.ResultAt(c, us, k) == us[k].made
    {
      assert (us + [use])[..k] == us[..k] && (us + [use])[k] == us[k];
    }
    assert (us + [use])[..|us|] == us && (us + [use])[|us|] == use;
  }

  lemma {:induction false} ResolveOneHits(v: Version, s: State, remote: Remote, f: PyFrame, made: CodeFrame)
    requires Ready(s) && Proper(f) && CacheKey(f) in L.Keys(s.frames.pairs)
    ensures ResolveOne(v, s, remote, f) ==
            (s.(frames := L.Access(s.frames, CacheKey(f), made)), Some(L.AccessValue(s.frames, CacheKey(f), made)))
  {
    hide FrameKey, FrameFromCode, L.Store, L.Hit;
  }

  lemma {:induction false} ResolveHits(v: Version, s: State, remote: Remote, fs: seq<PyFrame>, frames: seq<CodeFrame>)
    requires Ready(s) && AllProper(fs) && |frames| == |fs| && AllHit(s.frames, Uses(fs, frames))
    ensures Resolve(v, s, remote, fs) == (s.(frames := L.AccessAll(s.frames, Uses(fs, frames))), frames)
  {
    hide ResolveOne, L.Access, L.AccessValue, L.AccessAll, L.ResultAt, CacheKey, Proper, AllHit, Uses;
    if fs == [] {
      UsesOfNone(s.frames, fs, frames);
    } else {
      var n := |fs| - 1;
      var us, use := Uses(fs[..n], frames[..n]), L.Use(CacheKey(fs[n]), frames[n]);
      assert frames == frames[..n] + [frames[n]];
      UsesOneMore(fs, frames[..n], frames[n]);
      AllHitOneMore(s.frames, us, use);
      ResolveHits(v, s, remote, fs[..n], frames[..n]);
      ResolveOneHits(v, s.(frames := L.AccessAll(s.frames, us)), remote, fs[n], frames[n]);
    }
  }

  /**
   Resolving what is left of the stack a second time only hits: it changes no frame, emits nothing and
   leaves both caches as they are, whatever has been emitted since and can be read by then.
   */
  lemma {:induction false} SecondResolutionIsSilent(v: Version, s: State, remote: Remote, fs: seq<PyFrame>,
          u: State, again: Remote)
    requires Ready(s) && AllProper(fs) && L.WellFormed(s.frames) && |fs| <= s.frames.limit
    requires Ready(u) && u.frames == Resolve(v, s, remote, fs).0.frames
    ensures var frames := Resolve(v, s, remote, fs).1;
      AllProper(fs[..|frames|]) && Resolve(v, u, again, fs[..|frames|]) == (u, frames)
  {
    hide Resolve, L.AccessAll, L.ResultAt, Proper, CacheKey, L.WellFormed;
    var frames := Resolve(v, s, remote, fs).1;
    var us := Uses(fs, frames);
    ResolveIsPass(v, s, remote, fs);
    UsesKeys(fs, frames);
    UsesOfPrefix(fs, frames, |frames|);
    forall k | 0 <= k < |us|
      ensures us[k].key in L.Keys(L.AccessAll(u.frames, us[..k]).pairs) && L.ResultAt(u.frames, us, k) == us[k].made
    {
      L.SecondPassSameResults(s.frames, us, us, k);
    }
    L.SecondPassOnlyHits(s.frames, us, us);
    ResolveHits(v, u, again, fs[..|frames|], frames);
  }

  // ---- Emitting a sample ----------------------------------------------------------------------------

  const MAX_STACK_SIZE: nat := 2048
  const MAX_FRAME_CACHE_SIZE: nat := MAX_STACK_SIZE

  datatype Options = Options(full: bool, memory: bool, sleepless: bool, excludeEmpty: bool, gc: bool, whereMode: bool)

  /**
   A thread as it is found: `top` is its frame object (from 3.11 on its C frame, which leads to the
   interpreter frame `cframe` if it can be read), `mem` and `remote` are what can be read.
   */
  datatype Sample = Sample(
    pid: nat, iid: nat, tid: nat, invalid: bool, idle: bool, collecting: bool, time: nat, memory: int,
    top: Key, cframe: Option<Key>, mem: Memory, remote: Remote)

  ghost predicate ProperMemory(mem: Memory) {
    forall a :: a in mem ==> Proper(PyFrame(a, mem[a].code, mem[a].lasti))
  }

  lemma {:induction false} WalkProper(mem: Memory, top: Key, n: nat)
    requires ProperMemory(mem) && Nth(mem, top, n).Some?
    ensures AllProper(Walk(mem, top, n))
  {
    hide Proper;
    if n > 0 {
      WalkProper(mem, top, n - 1);
      var a := Nth(mem, top, n - 1).value;
      assert Proper(PyFrame(a, mem[a].code, mem[a].lasti));
    }
  }

  /** The stack that unwinding leaves, and whether it reports it as invalid. */
  ghost function Unwound(v: Version, smp: Sample): (r: (seq<PyFrame>, bool))
    requires ProperMemory(smp.mem)
    ensures AllProper(r.0) && |r.0| <= MAX_STACK_SIZE
  {
    var top := if v.V311? then smp.cframe else Some(smp.top);
    if top.None? then ([], true)
    else if v.V311? && top.value == 0 then ([], false)
    else
      var (n, invalid) := Climb(smp.mem, top.value, 0, MAX_STACK_SIZE);
      WalkProper(smp.mem, top.value, n);
      (Walk(smp.mem, top.value, n), invalid)
  }

  /**
   The stack of a sample: before 3.11 the chain of frame objects from `top`, from 3.11 on that of interpreter
   frames from where the C frame leads, which may be nowhere.
   */
  ghost predicate StackOf(v: Version, smp: Sample, fs: seq<PyFrame>, bad: bool) {
    if !v.V311? then ChainOf(smp.mem, smp.top, fs, bad)
    else if smp.cframe == None then fs == [] && bad
    else if smp.cframe == Some(0) then fs == [] && !bad
    else ChainOf(smp.mem, smp.cframe.value, fs, bad)
  }

  lemma {:induction false} UnwoundIsStack(v: Version, smp: Sample)
    requires ProperMemory(smp.mem)
    ensures StackOf(v, smp, Unwound(v, smp).0, Unwound(v, smp).1)
  {
    hide ChainOf, Climb, Walk;
    var top := if v.V311? then smp.cframe else Some(smp.top);
    if top.Some? {
      ClimbKeepsChain(smp.mem, top.value);
    }
  }

  lemma {:induction false} StackIsOne(v: Version, smp: Sample, fs: seq<PyFrame>, bad: bool)
    requires ProperMemory(smp.mem) && StackOf(v, smp, fs, bad)
    ensures Unwound(v, smp) == (fs, bad)
  {
    hide ChainOf, Unwound;
    UnwoundIsStack(v, smp);
    var (gs, worse) := Unwound(v, smp);
    if !v.V311? {
      ChainIsOne(smp.mem, smp.top, fs, bad, gs, worse);
    } else if smp.cframe.Some? && smp.cframe.value != 0 {
      ChainIsOne(smp.mem, smp.cframe.value, fs, bad, gs, worse);
    }
  }

  function Invalid(s: State): State {
    s.(out := s.out + [M.FrameInvalid])
  }

  function InvalidIf(bad: bool, s: State): State {
    if bad then Invalid(s) else s
  }

  /** Unwind and resolve; from 3.11 on the unwinding has already resolved the stack once. */
  ghost function Collect(v: Version, s: State, smp: Sample): (r: (State, seq<CodeFrame>))
    requires Ready(s) && ProperMemory(smp.mem)
    ensures Ready(r.0)
  {
    if smp.top == 0 then (s, [])
    else
      var (fs, bad) := Unwound(v, smp);
      if v.V311? then
        var (s1, kept) := Resolve(v, s, smp.remote, fs);
        var s2 := InvalidIf(bad || |kept| < |fs|, s1);
        assert AllProper(fs[..|kept|]);
        var (s3, frames) := Resolve(v, s2, smp.remote, fs[..|kept|]);
        (InvalidIf(|frames| < |kept|, s3), frames)
      else
        var (s1, frames) := Resolve(v, InvalidIf(bad, s), smp.remote, fs);
        (InvalidIf(|frames| < |fs|, s1), frames)
  }

  lemma {:induction false} CollectNothing(v: Version, s: State, smp: Sample)
    requires Ready(s) && ProperMemory(smp.mem) && smp.top == 0
    ensures Collect(v, s, smp) == (s, [])
  {
  }

  /** References, from the outermost frame to the top. */
  function Refs(frames: seq<CodeFrame>): seq<M.Event> {
    if frames == [] then [] else Refs(frames[1..]) + [M.FrameRef(frames[0].key)]
  }

  function IsIdle(o: Options, smp: Sample): bool {
    (o.full || o.sleepless || o.whereMode) && smp.idle
  }

  function Tail(o: Options, smp: Sample): seq<M.Event> {
    (if o.gc && smp.collecting then [M.Gc] else [])
    + if o.whereMode then []
      else if o.full then
        [M.MetricTime(smp.time)] + (if IsIdle(o, smp) then [M.Idle] else []) + [M.MetricMemory(smp.memory)]
      else if o.memory then [M.MetricMemory(smp.memory)]
      else [M.MetricTime(smp.time)]
  }

  /** `height` is that of the stack before it is unwound. */
  predicate Skips(o: Options, smp: Sample, height: nat) {
    || (!o.full && o.memory && smp.memory == 0)
    || smp.invalid
    || (o.excludeEmpty && height == 0)
    || (smp.memory == 0 && smp.time == 0)
    || (!o.full && IsIdle(o, smp) && o.sleepless)
  }

  function Begin(s: State, smp: Sample): State {
    s.(out := s.out + [M.Stack(smp.pid, smp.iid, smp.tid)])
  }

  /** Between samples the stack is empty. */
  ghost function Emit(v: Version, o: Options, s: State, smp: Sample): (r: State)
    requires Ready(s) && ProperMemory(smp.mem)
    ensures Ready(r)
  {
    if Skips(o, smp, 0) then s
    else
      var (s1, frames) := Collect(v, Begin(s, smp), smp);
      s1.(out := s1.out + Refs(frames) + Tail(o, smp))
  }

  ghost function Run(v: Version, o: Options, s: State, smps: seq<Sample>): (r: State)
    requires Ready(s) && forall i :: 0 <= i < |smps| ==> ProperMemory(smps[i].mem)
    ensures Ready(r)
  {
    if smps == [] then s else Emit(v, o, Run(v, o, s, smps[..|smps| - 1]), smps[|smps| - 1])
  }

  lemma {:induction false} RunNone(v: Version, o: Options, s: State, smps: seq<Sample>)
    requires Ready(s) && smps == []
    ensures Run(v, o, s, smps) == s
  {
  }

  lemma {:induction false} RunOneMore(v: Version, o: Options, s: State, smps: seq<Sample>)
    requires Ready(s) && smps != [] && forall i :: 0 <= i < |smps| ==> ProperMemory(smps[i].mem)
    ensures var n := |smps| - 1;
      Run(v, o, s, smps) == Emit(v, o, Run(v, o, s, smps[..n]), smps[n])
  {
    hide Emit, ProperMemory, Ready;
  }

  /** The string cache expands; the frame cache holds as many frames as the stack. */
  function Start(): State {
    State(L.Lru(false, MAX_FRAME_CACHE_SIZE, [], []), L.Lru(true, 1024, [], []), [])
  }

  /** Nothing is ever emitted with `excludeEmpty`, whatever the stacks are. */
  lemma {:induction false} ExcludeEmptyExcludesAll(v: Version, o: Options, s: State, smps: seq<Sample>)
    requires Ready(s) && o.excludeEmpty && forall i :: 0 <= i < |smps| ==> ProperMemory(smps[i].mem)
    ensures Run(v, o, s, smps) == s
  {
    if smps != [] {
      ExcludeEmptyExcludesAll(v, o, s, smps[..|smps| - 1]);
    }
  }

  /** From 3.11 on the second resolution can be left out. */
  lemma {:induction false} CollectOnce(v: Version, s: State, smp: Sample)
    requires Ready(s) && ProperMemory(smp.mem) && v.V311? && smp.top != 0
    requires L.WellFormed(s.frames) && s.frames.limit >= MAX_STACK_SIZE
    ensures var (fs, bad) := Unwound(v, smp);
      var (s1, frames) := Resolve(v, s, smp.remote, fs);
      Collect(v, s, smp) == (InvalidIf(bad || |frames| < |fs|, s1), frames)
  {
    hide L.WellFormed, Resolve, Proper, Unwound;
    var (fs, bad) := Unwound(v, smp);
    var (s1, kept) := Resolve(v, s, smp.remote, fs);
    SecondResolutionIsSilent(v, s, smp.remote, fs, InvalidIf(bad || |kept| < |fs|, s1), smp.remote);
  }
}
