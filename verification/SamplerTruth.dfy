/** A process whose code objects and strings stay as they are: the output tells what its stacks really were. */
module SamplerTruth {
  import opened Common
  import opened FrameKeys
  import opened Stacks
  import opened SamplerModel
  import opened MojoReader
  import opened RunInduction
  import opened SamplerRun
  import L = LruModel
  import M = MojoModel
  import LineTable
  import Lnotab

  // ---- What is true -------------------------------------------------------------------------------------

  ghost predicate Readable(w: Remote, key: Key) {
    key != 0 && key in w.strings
  }

  ghost function RowAt(w: Remote, filename: Key, scope: Key, loc: Location): Option<Row> {
    if Readable(w, filename) && Readable(w, scope) then
      Some(Row(w.strings[filename], w.strings[scope], loc.line, loc.lineEnd, loc.column, loc.columnEnd))
    else None
  }

  /** The file, scope and location of a frame, when the process holds all it takes to tell. */
  ghost function TrueRow(v: Version, w: Remote, f: PyFrame): Option<Row> {
    if f.code !in w.codes then None
    else
      var code := w.codes[f.code];
      match Locate(v, code, f.lasti)
      case None => None
      case Some(loc) => RowAt(w, code.filename, code.scope, loc)
  }

  /** How many frames, from the top, can be told. */
  ghost function Known(v: Version, w: Remote, fs: seq<PyFrame>): (n: nat)
    ensures n <= |fs|
  {
    if fs == [] then 0
    else
      var n := |fs| - 1;
      var m := Known(v, w, fs[..n]);
      if m < n then m else if TrueRow(v, w, fs[n]).Some? then n + 1 else n
  }

  /** From the outermost frame to the top. */
  ghost function TrueLines(v: Version, w: Remote, fs: seq<PyFrame>): seq<Item> {
    if fs == [] then [] else TrueLines(v, w, fs[1..]) + [Line(TrueRow(v, w, fs[0]))]
  }

  /** The one stack there is. */
  ghost function Stack(v: Version, smp: Sample): (r: (seq<PyFrame>, bool))
    requires ProperMemory(smp.mem)
    ensures if smp.top == 0 then r == ([], false) else StackOf(v, smp, r.0, r.1)
  {
    if smp.top == 0 then ([], false)
    else
      UnwoundIsStack(v, smp);
      var fs, bad :| StackOf(v, smp, fs, bad);
      (fs, bad)
  }

  lemma {:induction false} StackIsUnwound(v: Version, smp: Sample)
    requires ProperMemory(smp.mem)
    ensures Stack(v, smp) == if smp.top == 0 then ([], false) else Unwound(v, smp)
    ensures AllProper(Stack(v, smp).0) && |Stack(v, smp).0| <= MAX_STACK_SIZE
  {
    hide StackOf, Unwound;
    if smp.top != 0 {
      StackIsOne(v, smp, Stack(v, smp).0, Stack(v, smp).1);
    }
  }

  /**
   What there is to see of a sample, without any cache: the stack up to the first frame that cannot be
   told, and a mark for what went wrong.
   */
  ghost function Truth(v: Version, o: Options, w: Remote, smp: Sample): seq<Item>
    requires ProperMemory(smp.mem)
  {
    if Skips(o, smp, 0) then []
    else
      var (fs, bad) := Stack(v, smp);
      var n := Known(v, w, fs);
      Report(o, smp, TrueFaults(v, bad, n < |fs|), TrueLines(v, w, fs[..n]))
  }

  function TrueFaults(v: Version, bad: bool, cut: bool): nat {
    if v.V311? then (if bad || cut then 1 else 0) else (if bad then 1 else 0) + if cut then 1 else 0
  }

  ghost function AllTrue(v: Version, o: Options, w: Remote, smps: seq<Sample>): seq<Item>
    requires AllProperMemory(smps)
  {
    if smps == [] then []
    else AllTrue(v, o, w, smps[..|smps| - 1]) + Truth(v, o, w, smps[|smps| - 1])
  }

  // ---- Which frames and strings may be taken for each other ----------------------------------------------

  /** Frames that share a cache key tell the same, or cannot be told. */
  ghost predicate Agree(v: Version, w: Remote, used: set<PyFrame>) {
    forall f, g :: f in used && g in used && CacheKey(f) == CacheKey(g) ==> TrueRow(v, w, f) == TrueRow(v, w, g)
  }

  /** The two tell the same, if both can be told. */
  ghost predicate TellSame(v: Version, w: Remote, f: PyFrame, g: PyFrame) {
    TrueRow(v, w, f).Some? && TrueRow(v, w, g).Some? ==> TrueRow(v, w, f) == TrueRow(v, w, g)
  }

  /** Frames that can be told and share a stored key tell the same. */
  ghost predicate StoredAgree(v: Version, w: Remote, used: set<PyFrame>) {
    forall f, g :: f in used && g in used && Stored(v, f) == Stored(v, g) ==> TellSame(v, w, f, g)
  }

  /** The strings that are read when the frame is made: the scope is not, if the file cannot be. */
  ghost function Names(w: Remote, f: PyFrame): (names: set<Key>)
    ensures forall a :: a in names ==> Readable(w, a)
  {
    if f.code !in w.codes || !Readable(w, w.codes[f.code].filename) then {}
    else {w.codes[f.code].filename} + if Readable(w, w.codes[f.code].scope) then {w.codes[f.code].scope} else {}
  }

  ghost predicate Confused(w: Remote, a: Key, b: Key)
    requires Readable(w, a) && Readable(w, b)
  {
    M.Ref(a) == M.Ref(b) && w.strings[a] != w.strings[b]
  }

  /** A string of the one frame shares its reference with a different one of the other. */
  ghost predicate Clash(w: Remote, f: PyFrame, g: PyFrame) {
    exists a, b :: a in Names(w, f) && b in Names(w, g) && Confused(w, a, b)
  }

  /** No string of a frame that can be told shares its reference with a different one. */
  ghost predicate TextsAgree(v: Version, w: Remote, used: set<PyFrame>) {
    forall f, g :: f in used && g in used && TrueRow(v, w, f).Some? ==> !Clash(w, f, g)
  }

  ghost predicate AllAgree(v: Version, w: Remote, used: set<PyFrame>) {
    Agree(v, w, used) && StoredAgree(v, w, used) && TextsAgree(v, w, used)
  }

  /** Frames agree when codes are told apart by the 27 bits that keys keep, and instructions fit 16 bits. */
  lemma {:induction false} ApartAgree(v: Version, w: Remote, used: set<PyFrame>)
    requires forall f :: f in used ==> f.origin == 0 && 0 <= f.lasti < 0x1_0000
    requires forall f, g :: f in used && g in used && M.Ref(f.code) == M.Ref(g.code) ==> f.code == g.code
    ensures Agree(v, w, used)
  {
    hide FrameKey, TrueRow;
    forall f, g | f in used && g in used && CacheKey(f) == CacheKey(g) ensures TrueRow(v, w, f) == TrueRow(v, w, g) {
      KeysAgree(f.code, f.lasti, g.code, g.lasti);
      assert f == g;
    }
  }

  lemma {:induction false} NamesAmong(w: Remote, f: PyFrame, addrs: set<Key>)
    requires NamesIn(w, addrs)
    ensures forall a :: a in Names(w, f) ==> a in addrs && a != 0
  {
  }

  lemma {:induction false} NoClash(w: Remote, addrs: set<Key>, f: PyFrame, g: PyFrame)
    requires NamesIn(w, addrs) && Injective(addrs)
    ensures !Clash(w, f, g)
  {
    hide Names;
    NamesAmong(w, f, addrs);
    NamesAmong(w, g, addrs);
  }

  /** Where keys and addresses are told apart, the first condition is the only one. */
  lemma {:induction false} AgreeIsEnough(v: Version, w: Remote, used: set<PyFrame>, addrs: set<Key>)
    requires KeysApart(v, used) && NamesIn(w, addrs) && Injective(addrs)
    ensures AllAgree(v, w, used) <==> Agree(v, w, used)
  {
    hide CacheKey, Stored, TrueRow, NamesIn, Injective, Clash;
    forall f, g ensures !Clash(w, f, g) {
      NoClash(w, addrs, f, g);
    }
  }

  // ---- Where a frame is: the line tables -------------------------------------------------------------------

  /** From 3.11 on: the entry that covers the instruction, applied after those before it. */
  lemma {:induction false} LocatesEntry(code: Code, es: seq<LineTable.Entry>, lasti: nat)
    requires es != [] && forall e :: e in es ==> LineTable.WellFormed(e)
    requires code.table == Some(LineTable.EncodeAll(es)) && code.firstLine < TWO32
    ensures var start := LineTable.Location(code.firstLine, code.firstLine, 0, 0);
      Locate(V311, code, lasti) == Some(LineTable.ApplyAll(es[..LineTable.Reach(es, lasti)], start))
  {
    hide LineTable.Decode, LineTable.ApplyAll, LineTable.Reach, LineTable.Encode;
    LineTable.LocationRoundTrip(es, [0, 0], code.firstLine, lasti);
  }

  /** And for a frame that has not started, that of the last entry. */
  lemma {:induction false} LocatesUnstarted(code: Code, es: seq<LineTable.Entry>, lasti: CInt)
    requires es != [] && (forall e :: e in es ==> LineTable.WellFormed(e))
    requires code.table == Some(LineTable.EncodeAll(es)) && code.firstLine < TWO32
    requires lasti < 0 && LineTable.TotalUnits(es) < 0x8000_0000_0000_0000
    ensures Locate(V311, code, lasti) ==
            Some(LineTable.ApplyAll(es, LineTable.Location(code.firstLine, code.firstLine, 0, 0)))
  {
    hide LineTable.Decode, LineTable.ApplyAll, LineTable.Encode, LineTable.TotalUnits;
    LineTable.UnstartedLocation(es, [0, 0], code.firstLine, lasti);
  }

  /**
   On 3.10: the line of the span around the instruction, which is at byte `2 * lasti`.  The end line stays
   the first line of the code, and there are no columns.
   */
  lemma {:induction false} LocatesSpan(code: Code, chunks: seq<Lnotab.Pairs>, tail: Lnotab.Pairs,
          spans: seq<Lnotab.Span>, lasti: nat)
    requires Lnotab.NewTables(chunks, spans, code.firstLine) && (tail == [] || tail[0] == 0xff)
    requires code.table == Some(Lnotab.Concat(chunks) + tail) && lasti < 0x4000_0000
    ensures Locate(V310, code, lasti) ==
            Some(LineTable.Location(U32(Lnotab.SpanLine(spans, code.firstLine, 2 * lasti)), U32(code.firstLine), 0, 0))
  {
    hide Lnotab.NewLine, Lnotab.NewTables, Lnotab.SpanLine, U32;
    Lnotab.NewLineIsExact(chunks, tail, spans, 0, code.firstLine, 2 * lasti);
  }

  /** Before 3.10: the same with the line of the last row that starts at or before the instruction. */
  lemma {:induction false} LocatesRow(code: Code, chunks: seq<Lnotab.Pairs>, rows: seq<Lnotab.Row>, lasti: nat)
    requires Lnotab.Tables(chunks, rows, 0, code.firstLine) && code.table == Some(Lnotab.Concat(chunks))
    ensures Locate(Old, code, lasti) ==
            Some(LineTable.Location(U32(Lnotab.LineAt(rows, code.firstLine, lasti)), U32(code.firstLine), 0, 0))
  {
    hide Lnotab.OldLine, Lnotab.Tables, Lnotab.LineAt, U32;
    Lnotab.OldLineIsExact(chunks, rows, 0, code.firstLine, lasti);
  }

  /** No location is found exactly when the table cannot be read, is empty from 3.11 on, or odd before. */
  lemma {:induction false} LocatesNothing(v: Version, code: Code, lasti: int)
    ensures Locate(v, code, lasti).None? <==>
      code.table.None? || (if v.V311? then |code.table.value| == 0 else |code.table.value| % 2 == 1)
  {
    hide LineTable.Decode, Lnotab.NewLine, Lnotab.OldLine;
  }

  /** A frame that has not started is on the first line before 3.10, and on that of the first pair on 3.10. */
  lemma {:induction false} LocatesUnstartedBefore(code: Code, bs: Lnotab.Pairs, lasti: int)
    requires code.table == Some(bs) && code.firstLine < TWO32 && -0x4000_0000 <= lasti < 0
    ensures Locate(Old, code, lasti) == Some(LineTable.Location(code.firstLine, code.firstLine, 0, 0))
    ensures bs != [] && bs[0] < 255 ==>
      Locate(V310, code, lasti) ==
        Some(LineTable.Location(U32(code.firstLine + Lnotab.LineDelta(bs[1])), code.firstLine, 0, 0))
  {
    if bs != [] && bs[0] < 255 {
      Lnotab.NewLinePair(bs, 0, code.firstLine, 2 * lasti);
    }
  }

  // ---- What is cached and defined is true -----------------------------------------------------------------

  /** The text of a string that some frame in use has. */
  ghost predicate NamedText(w: Remote, used: set<PyFrame>, ref: nat, text: Text) {
    exists f, a :: f in used && a in Names(w, f) && M.Ref(a) == ref && w.strings[a] == text
  }

  ghost predicate OwnName(w: Remote, used: set<PyFrame>, key: Key) {
    exists f :: f in used && key in Names(w, f)
  }

  ghost predicate StringsHonest(w: Remote, used: set<PyFrame>, t: Tables, strings: L.Lru<Text>) {
    && (forall p :: p in strings.pairs ==> OwnName(w, used, p.key))
    && forall ref :: ref in t.strings ==> NamedText(w, used, ref, t.strings[ref])
  }

  /** The frame that is made of a code object and an instruction. */
  ghost predicate IsEventOf(v: Version, w: Remote, f: PyFrame, e: M.Event) {
    && f.code in w.codes && TrueRow(v, w, f).Some?
    && var made := MakeFrame(v, f.code, w.codes[f.code], f.lasti); made.Some? && e == FrameEvent(made.value)
  }

  /** A frame event tells of some frame in use with its key. */
  ghost predicate EventHonest(v: Version, w: Remote, used: set<PyFrame>, key: nat, e: M.Event) {
    exists f :: f in used && Stored(v, f) == key && IsEventOf(v, w, f, e)
  }

  /** So does a cached frame, of one with its two keys. */
  ghost predicate CachedHonest(v: Version, w: Remote, used: set<PyFrame>, p: L.Pair<CodeFrame>) {
    exists f :: f in used && IsCached(v, w, f, p)
  }

  ghost predicate IsCached(v: Version, w: Remote, f: PyFrame, p: L.Pair<CodeFrame>) {
    CacheKey(f) == p.key && Stored(v, f) == p.value.key && TrueRow(v, w, f).Some?
  }

  ghost predicate EventsHonest(v: Version, w: Remote, used: set<PyFrame>, t: Tables) {
    forall key :: key in t.frames ==> EventHonest(v, w, used, key, t.frames[key])
  }

  ghost predicate Honest(v: Version, w: Remote, used: set<PyFrame>, s: State) {
    && StringsHonest(w, used, Defined(s.out), s.strings)
    && EventsHonest(v, w, used, Defined(s.out))
    && forall p :: p in s.frames.pairs ==> CachedHonest(v, w, used, p)
  }

  ghost function Honesty(v: Version, w: Remote, used: set<PyFrame>): State -> bool {
    (s: State) => Honest(v, w, used, s)
  }

  /** Frames in use, of a process that stays as it is. */
  ghost function Still(w: Remote, used: set<PyFrame>): (Remote, PyFrame) -> bool {
    (remote: Remote, f: PyFrame) => remote == w && f in used
  }

  lemma {:induction false} HeldReadable(w: Remote, used: set<PyFrame>, t: Tables, strings: L.Lru<Text>, key: Key)
    requires StringsHonest(w, used, t, strings) && Held(strings, key)
    ensures OwnName(w, used, key) && Readable(w, key)
  {
    assert strings.pairs[L.IndexOf(strings.pairs, key)] in strings.pairs;
    assert OwnName(w, used, key);
  }

  lemma {:induction false} AskedIsNamed(w: Remote, used: set<PyFrame>, t: Tables, s: State, f: PyFrame, key: Key)
    requires StringsHonest(w, used, t, s.strings) && Asked(s, w, f, key)
    ensures key in Names(w, Spot(f)) && Readable(w, key)
  {
    hide Held, StringsHonest;
    if Held(s.strings, w.codes[f.code].filename) {
      HeldReadable(w, used, t, s.strings, w.codes[f.code].filename);
    }
  }

  lemma {:induction false} WithStringHonest(v: Version, w: Remote, used: set<PyFrame>, s: State, f: PyFrame, key: Key)
    requires Shaped(s) && Honest(v, w, used, s) && Spot(f) in used && Asked(s, w, f, key)
    ensures key in w.strings && Honest(v, w, used, WithString(s, key, w.strings[key]))
  {
    hide L.WellFormed, L.Store, Held, Defined, Asked, Names, EventHonest, CachedHonest, Readable;
    var t := Defined(s.out);
    AskedReadable(s, w, f, key);
    AskedIsNamed(w, used, t, s, f, key);
    StoreKeeps(s.strings, key, w.strings[key]);
    OneMore(s.out, M.StringDef(M.Ref(key), w.strings[key]));
    assert NamedText(w, used, M.Ref(key), w.strings[key]) && OwnName(w, used, key);
    hide NamedText, OwnName;
    var r := WithString(s, key, w.strings[key]);
    assert StringsHonest(w, used, Defined(r.out), r.strings);
  }

  lemma {:induction false} MadeTells(v: Version, w: Remote, used: set<PyFrame>, s: State, f: PyFrame, frame: CodeFrame)
    requires Honest(v, w, used, s) && Made(v, s, w, f, frame)
    ensures var g := Spot(f);
      IsEventOf(v, w, g, FrameEvent(frame)) && IsCached(v, w, g, L.Pair(CacheKey(f), frame))
  {
    hide Held, StringsHonest, Defined, FrameKey, Locate, Readable, EventsHonest, CachedHonest;
    HeldReadable(w, used, Defined(s.out), s.strings, frame.filename);
    HeldReadable(w, used, Defined(s.out), s.strings, frame.scope);
    MadeKey(v, f, w.codes[f.code], frame);
  }

  lemma {:induction false} WithFrameHonest(v: Version, w: Remote, used: set<PyFrame>, s: State, f: PyFrame,
          frame: CodeFrame)
    requires Shaped(s) && Honest(v, w, used, s) && Spot(f) in used && Made(v, s, w, f, frame)
    ensures Honest(v, w, used, WithFrame(s, CacheKey(f), frame))
  {
    hide L.WellFormed, L.Store, Defined, NamedText, OwnName, Made, CacheKey, Stored, IsEventOf, TrueRow;
    var t, key := Defined(s.out), CacheKey(f);
    MadeHeld(v, s, w, f, frame);
    MadeTells(v, w, used, s, f, frame);
    OneMore(s.out, FrameEvent(frame));
    FrameStoreMembers(s.frames, key, frame);
    assert CachedHonest(v, w, used, L.Pair(key, frame));
    assert EventHonest(v, w, used, frame.key, FrameEvent(frame));
    hide CachedHonest, EventHonest;
  }

  lemma {:induction false} LookupsHonest(v: Version, w: Remote, used: set<PyFrame>, s: State, key: Key)
    requires Shaped(s) && Honest(v, w, used, s)
    ensures Held(s.strings, key) ==> Honest(v, w, used, s.(strings := L.Hit(s.strings, key)))
    ensures key in L.Keys(s.frames.pairs) ==> Honest(v, w, used, s.(frames := L.Hit(s.frames, key)))
  {
    hide L.WellFormed, L.Hit, Held, Defined, NamedText, EventsHonest, CachedHonest, OwnName;
    if Held(s.strings, key) {
      HitKeeps(s.strings, key);
    }
    if key in L.Keys(s.frames.pairs) {
      FrameHitMembers(s.frames, key);
    }
  }

  lemma {:induction false} EventsKeepHonest(v: Version, w: Remote, used: set<PyFrame>, s: State, es: seq<M.Event>)
    requires Honest(v, w, used, s) && AllQuiet(es)
    ensures Honest(v, w, used, s.(out := s.out + es))
  {
    hide Defined, StringsHonest, EventsHonest, CachedHonest;
    QuietDefines(s.out, es);
  }

  /** While the process stays as it is, all steps keep caches and definitions true, whatever they may be taken for. */
  lemma {:induction false} HonestyKept(v: Version, w: Remote, used: set<PyFrame>)
    ensures KeptByResolving(v, Honesty(v, w, used), Still(w, used))
    ensures KeptByEvents(Honesty(v, w, used))
  {
    hide Shaped, Honest, L.Hit, Held, CacheKey, WithString, WithFrame, AllQuiet, Asked, Made, Proper;
    var inv, allowed := Honesty(v, w, used), Still(w, used);
    assert KeptByLookups(inv) by {
      forall s, key | Shaped(s) && inv(s)
        ensures Held(s.strings, key) ==> inv(s.(strings := L.Hit(s.strings, key)))
        ensures key in L.Keys(s.frames.pairs) ==> inv(s.(frames := L.Hit(s.frames, key)))
      {
        LookupsHonest(v, w, used, s, key);
      }
    }
    assert KeptByStrings(inv, allowed) by {
      forall s, remote, f, key: Key | Shaped(s) && inv(s) && allowed(remote, Spot(f)) && Asked(s, remote, f, key)
        ensures key in remote.strings && inv(WithString(s, key, remote.strings[key]))
      {
        WithStringHonest(v, w, used, s, f, key);
      }
    }
    assert KeptByFrames(v, inv, allowed) by {
      forall s, remote, f, frame | Shaped(s) && inv(s) && allowed(remote, Spot(f)) && Made(v, s, remote, f, frame)
        ensures inv(WithFrame(s, CacheKey(f), frame))
      {
        WithFrameHonest(v, w, used, s, f, frame);
      }
    }
    forall s, es | Shaped(s) && inv(s) && AllQuiet(es) ensures inv(s.(out := s.out + es)) {
      EventsKeepHonest(v, w, used, s, es);
    }
  }

  // ---- What is resolved is told ---------------------------------------------------------------------------

  lemma {:induction false} InternTells(v: Version, w: Remote, used: set<PyFrame>, s: State, key: Key)
    requires Shaped(s) && Honest(v, w, used, s)
    ensures Intern(s, w.strings, key).1 <==> Readable(w, key)
  {
    hide L.WellFormed, L.Hit, L.HitValue, WithString, Held, StringsHonest, Defined, EventsHonest, CachedHonest;
    HitValueHeld(s.strings, key);
    if Held(s.strings, key) {
      HeldReadable(w, used, Defined(s.out), s.strings, key);
    }
  }

  lemma {:induction false} FrameFromCodeTells(v: Version, w: Remote, used: set<PyFrame>, s: State, f: PyFrame)
    requires Shaped(s) && Honest(v, w, used, s) && Spot(f) in used
    ensures FrameFromCode(v, s, w, f.code, f.lasti).1.Some? <==> TrueRow(v, w, f).Some?
  {
    hide Shaped, Honest, Intern, Readable, Locate, StoredKey, KeptByResolving, Held;
    if f.code in w.codes {
      var code := w.codes[f.code];
      HonestyKept(v, w, used);
      InternTells(v, w, used, s, code.filename);
      InternKeeps(v, Honesty(v, w, used), Still(w, used), s, w, f, code.filename);
      var (s1, named) := Intern(s, w.strings, code.filename);
      InternTells(v, w, used, s1, code.scope);
    }
  }

  lemma {:induction false} SpotRow(v: Version, w: Remote, f: PyFrame)
    ensures TrueRow(v, w, Spot(f)) == TrueRow(v, w, f)
  {
  }

  lemma {:induction false} HitTells(v: Version, w: Remote, used: set<PyFrame>, s: State, f: PyFrame)
    requires Shaped(s) && Honest(v, w, used, s) && Agree(v, w, used) && Spot(f) in used
    requires CacheKey(f) in L.Keys(s.frames.pairs)
    ensures TrueRow(v, w, f).Some?
  {
    hide FrameKey, L.WellFormed, StringsHonest, EventsHonest, TrueRow, Stored, Defined;
    var p := s.frames.pairs[L.IndexOf(s.frames.pairs, CacheKey(f))];
    assert CachedHonest(v, w, used, p);
    var g :| g in used && IsCached(v, w, g, p);
    SpotKeys(v, f);
    SpotRow(v, w, f);
    assert CacheKey(Spot(f)) == CacheKey(g);
  }

  /** A frame resolves exactly when it can be told. */
  lemma {:induction false} ResolveOneTells(v: Version, w: Remote, used: set<PyFrame>, s: State, f: PyFrame)
    requires Shaped(s) && Honest(v, w, used, s) && Agree(v, w, used) && Spot(f) in used && Proper(f)
    ensures ResolveOne(v, s, w, f).1.Some? <==> TrueRow(v, w, f).Some?
  {
    hide Shaped, Honest, FrameFromCode, WithFrame, Proper, CacheKey, L.HitValue, L.Hit, TrueRow, Agree;
    L.MissChangesNothing(s.frames, CacheKey(f));
    if CacheKey(f) in L.Keys(s.frames.pairs) {
      HitTells(v, w, used, s, f);
    } else {
      FrameFromCodeTells(v, w, used, s, f);
    }
  }

  /** So does a stack, up to the first frame that cannot be told. */
  lemma {:induction false} ResolveTells(v: Version, w: Remote, used: set<PyFrame>, s: State, fs: seq<PyFrame>)
    requires Shaped(s) && Honest(v, w, used, s) && Agree(v, w, used) && AllProper(fs)
    requires AllAllowed(Still(w, used), w, fs)
    ensures |Resolve(v, s, w, fs).1| == Known(v, w, fs)
  {
    hide Shaped, Honest, ResolveOne, Agree, Proper, AllProper, TrueRow, KeptByResolving;
    if fs != [] {
      var n := |fs| - 1;
      AllProperInit(fs);
      HonestyKept(v, w, used);
      ResolveTells(v, w, used, s, fs[..n]);
      ResolveKeeps(v, Honesty(v, w, used), Still(w, used), s, w, fs[..n]);
      var (s1, before) := Resolve(v, s, w, fs[..n]);
      if |before| == n {
        ResolveOneTells(v, w, used, s1, fs[n]);
      }
    }
  }

  lemma {:induction false} TextTrue(v: Version, w: Remote, used: set<PyFrame>, t: Tables, strings: L.Lru<Text>,
          f: PyFrame, a: Key)
    requires StringsHonest(w, used, t, strings) && TextsAgree(v, w, used)
    requires f in used && TrueRow(v, w, f).Some? && a in Names(w, f) && M.Ref(a) in t.strings
    ensures Readable(w, a) && t.strings[M.Ref(a)] == w.strings[a]
  {
    hide TrueRow, Names;
    assert NamedText(w, used, M.Ref(a), t.strings[M.Ref(a)]);
    var g, b :| g in used && b in Names(w, g) && M.Ref(b) == M.Ref(a) && w.strings[b] == t.strings[M.Ref(a)];
    assert !Clash(w, f, g);
    assert !Confused(w, a, b);
  }

  /** An event with its strings in the reader's tables reads as the frame it tells of. */
  lemma {:induction false} EventReads(v: Version, w: Remote, used: set<PyFrame>, s: State, key: Key, f: PyFrame)
    requires Honest(v, w, used, s) && TextsAgree(v, w, used) && f in used
    requires var t := Defined(s.out);
      key in t.frames && LookUp(t, key).Some? && IsEventOf(v, w, f, t.frames[key])
    ensures LookUp(Defined(s.out), key) == TrueRow(v, w, f)
  {
    hide Defined, TextsAgree, Locate, FrameKey, EventsHonest, CachedHonest, StringsHonest;
    var t, code := Defined(s.out), w.codes[f.code];
    assert code.filename in Names(w, f) && code.scope in Names(w, f);
    TextTrue(v, w, used, t, s.strings, f, code.filename);
    TextTrue(v, w, used, t, s.strings, f, code.scope);
  }

  /** What is cached for a frame reads as the frame. */
  lemma {:induction false} CachedReads(v: Version, w: Remote, used: set<PyFrame>, s: State, f: PyFrame,
          frame: CodeFrame)
    requires Founded(s) && Honest(v, w, used, s) && AllAgree(v, w, used) && Spot(f) in used
    requires L.Pair(CacheKey(f), frame) in s.frames.pairs
    ensures LookUp(Defined(s.out), frame.key) == TrueRow(v, w, f)
  {
    hide Grounded, Defined, LookUp, StringsHonest, TextsAgree, TrueRow, Stored, CacheKey, IsEventOf;
    var t, p := Defined(s.out), L.Pair(CacheKey(f), frame);
    assert CachedHonest(v, w, used, p);
    var g :| g in used && IsCached(v, w, g, p);
    assert EventHonest(v, w, used, frame.key, t.frames[frame.key]);
    var h :| h in used && Stored(v, h) == frame.key && IsEventOf(v, w, h, t.frames[frame.key]);
    EventTellable(v, w, h, t.frames[frame.key]);
    EventReads(v, w, used, s, frame.key, h);
    SpotKeys(v, f);
    SpotRow(v, w, f);
    assert TrueRow(v, w, h) == TrueRow(v, w, g);
    assert TrueRow(v, w, g) == TrueRow(v, w, Spot(f));
  }

  lemma {:induction false} EventTellable(v: Version, w: Remote, f: PyFrame, e: M.Event)
    requires IsEventOf(v, w, f, e)
    ensures TrueRow(v, w, f).Some?
  {
  }

  /** The cache has each frame, under the key of the frame it was resolved from. */
  ghost predicate CachedFor(c: L.Lru<CodeFrame>, frames: seq<CodeFrame>, fs: seq<PyFrame>) {
    |frames| == |fs| && forall i :: 0 <= i < |fs| ==> L.Pair(CacheKey(fs[i]), frames[i]) in c.pairs
  }

  ghost predicate AllSpots(fs: seq<PyFrame>, used: set<PyFrame>) {
    forall i :: 0 <= i < |fs| ==> Spot(fs[i]) in used
  }

  lemma {:induction false} ReadTrue(v: Version, w: Remote, used: set<PyFrame>, s: State, frames: seq<CodeFrame>,
          fs: seq<PyFrame>)
    requires Founded(s) && Honest(v, w, used, s) && AllAgree(v, w, used)
    requires CachedFor(s.frames, frames, fs) && AllSpots(fs, used)
    ensures Read(Defined(s.out), frames) == TrueLines(v, w, fs)
    decreases |fs|
  {
    hide Founded, Honest, AllAgree, Defined, LookUp, TrueRow, CacheKey;
    if fs != [] {
      CachedReads(v, w, used, s, fs[0], frames[0]);
      ReadTrue(v, w, used, s, frames[1..], fs[1..]);
    }
  }

  // ---- Samples ----------------------------------------------------------------------------------------------

  /** The sample finds the process as it is, and frames in use. */
  ghost predicate Within(w: Remote, used: set<PyFrame>, smp: Sample) {
    smp.remote == w && Admits(Still(w, used), smp)
  }

  lemma {:induction false} StackAllowed(v: Version, w: Remote, used: set<PyFrame>, smp: Sample)
    requires Within(w, used, smp)
    ensures ProperMemory(smp.mem)
    ensures AllAllowed(Still(w, used), w, Stack(v, smp).0) && AllSpots(Stack(v, smp).0, used)
  {
    hide ProperMemory, Unwound, Stack, StackOf;
    StackIsUnwound(v, smp);
    UnwoundAllowed(v, Still(w, used), smp);
  }

  lemma {:induction false} ResolvedCached(v: Version, s: State, remote: Remote, fs: seq<PyFrame>)
    requires Ready(s) && L.WellFormed(s.frames) && AllProper(fs) && |fs| <= s.frames.limit
    ensures var (r, frames) := Resolve(v, s, remote, fs); CachedFor(r.frames, frames, fs[..|frames|])
  {
    hide Resolve, Proper, CacheKey, L.WellFormed;
    var (r, frames) := Resolve(v, s, remote, fs);
    forall i | 0 <= i < |frames| ensures L.Pair(CacheKey(fs[..|frames|][i]), frames[i]) in r.frames.pairs {
      ResolvedFramesLive(v, s, remote, fs, i);
    }
  }

  lemma {:induction false} CollectTells(v: Version, w: Remote, used: set<PyFrame>, s: State, smp: Sample)
    requires Shaped(s) && Honest(v, w, used, s) && Within(w, used, smp) && Agree(v, w, used) && ProperMemory(smp.mem)
    ensures var (r, frames) := Collect(v, s, smp); var (fs, bad) := Stack(v, smp); var n := Known(v, w, fs);
      && CachedFor(r.frames, frames, fs[..n])
      && Faults(v, s, smp) == TrueFaults(v, bad, n < |fs|)
  {
    hide Shaped, Honest, Resolve, Agree, Proper, Known, Unwound, ProperMemory, AllAllowed, CachedFor, Admits,
      KeptByEvents, L.WellFormed, Stack, StackOf;
    StackIsUnwound(v, smp);
    var (fs, bad) := Stack(v, smp);
    StackAllowed(v, w, used, smp);
    if smp.top == 0 {
      assert CachedFor(s.frames, [], fs[..0]) by { NothingCached(s.frames); }
    } else {
      ShapedReady(s);
      HonestyKept(v, w, used);
      InvalidKeeps(Honesty(v, w, used), s, bad);
      var s0 := if v.V311? then s else InvalidIf(bad, s);
      ShapedReady(s0);
      ResolveTells(v, w, used, s0, fs);
      ResolvedCached(v, s0, w, fs);
      if v.V311? {
        CollectOnce(v, s, smp);
      }
    }
  }

  lemma {:induction false} NothingCached(c: L.Lru<CodeFrame>)
    ensures CachedFor(c, [], [])
  {
  }

  lemma {:induction false} CollectHonest(v: Version, w: Remote, used: set<PyFrame>, s: State, smp: Sample)
    requires Shaped(s) && Honest(v, w, used, s) && Within(w, used, smp) && ProperMemory(smp.mem)
    ensures Shaped(Begin(s, smp)) && Honest(v, w, used, Begin(s, smp))
    ensures Honest(v, w, used, Collect(v, Begin(s, smp), smp).0)
  {
    hide Shaped, Honest, Admits, Collect, KeptByResolving, KeptByEvents, ProperMemory;
    HonestyKept(v, w, used);
    BeginKeeps(Honesty(v, w, used), s, smp);
    CollectKeeps(v, Honesty(v, w, used), Still(w, used), Begin(s, smp), smp);
  }

  /** What is read of a sample is its true stack, up to the first frame that cannot be told. */
  lemma {:induction false} EmitTells(v: Version, o: Options, w: Remote, used: set<PyFrame>, s: State, smp: Sample)
    requires Shaped(s) && Founded(s) && Honest(v, w, used, s) && Within(w, used, smp) && AllAgree(v, w, used)
    ensures ProperMemory(smp.mem) && Seen(v, o, s, smp) == Truth(v, o, w, smp)
  {
    hide Shaped, Founded, Honest, Admits, Agree, StoredAgree, TextsAgree, Collect, Faults, Read, TrueFaults, TrueLines,
      Known, Stack, Skips, Report, Begin, CachedFor, AllAllowed, ProperMemory;
    StackAllowed(v, w, used, smp);
    if !Skips(o, smp, 0) {
      var s0 := Begin(s, smp);
      CollectHonest(v, w, used, s, smp);
      CollectTells(v, w, used, s0, smp);
      CollectFounded(v, s, smp);
      var (s1, frames) := Collect(v, s0, smp);
      var fs := Stack(v, smp).0;
      ReadTrue(v, w, used, s1, frames, fs[..Known(v, w, fs)]);
    }
  }

  // ---- Runs -------------------------------------------------------------------------------------------------

  ghost predicate AllWithin(w: Remote, used: set<PyFrame>, smps: seq<Sample>) {
    forall i :: 0 <= i < |smps| ==> Within(w, used, smps[i])
  }

  lemma {:induction false} AllWithinAdmit(w: Remote, used: set<PyFrame>, smps: seq<Sample>)
    requires AllWithin(w, used, smps)
    ensures AllAdmit(Still(w, used), smps) && AllProperMemory(smps)
  {
    hide Admits;
    AllAdmitProper(Still(w, used), smps);
  }

  lemma {:induction false} HonestAtStart(v: Version, w: Remote, used: set<PyFrame>)
    ensures Honest(v, w, used, Start())
  {
  }

  lemma {:induction false} RunHonest(v: Version, o: Options, w: Remote, used: set<PyFrame>, smps: seq<Sample>)
    requires AllWithin(w, used, smps)
    ensures AllProperMemory(smps)
    ensures var r := Run(v, o, Start(), smps); Shaped(r) && Founded(r) && Honest(v, w, used, r)
  {
    hide Shaped, Founded, Honest, AllAdmit, Run, KeptByResolving, KeptByEvents, ProperMemory, AllWithin;
    AllWithinAdmit(w, used, smps);
    HonestyKept(v, w, used);
    HonestAtStart(v, w, used);
    RunFounded(v, o, smps);
    RunKeeps(v, Honesty(v, w, used), Still(w, used), o, smps);
  }

  lemma {:induction false} RunTells(v: Version, o: Options, w: Remote, used: set<PyFrame>, smps: seq<Sample>)
    requires AllAgree(v, w, used) && AllWithin(w, used, smps)
    ensures AllProperMemory(smps) && AllSeen(v, o, smps) == AllTrue(v, o, w, smps)
  {
    hide Shaped, Founded, Honest, Seen, Truth, Run, AllAgree, Within, ProperMemory;
    AllWithinAdmit(w, used, smps);
    if smps != [] {
      var n := |smps| - 1;
      RunTells(v, o, w, used, smps[..n]);
      RunHonest(v, o, w, used, smps[..n]);
      EmitTells(v, o, w, used, Run(v, o, Start(), smps[..n]), smps[n]);
    }
  }

  /** The bytes of the run tell the samples as they were. */
  ghost predicate Tells(v: Version, o: Options, w: Remote, smps: seq<Sample>) {
    AllProperMemory(smps) && ReadBytes(Bytes(v, o, smps)) == Some(AllTrue(v, o, w, smps))
  }

  /**
   End to end: while the process keeps its code objects and strings, and what may be taken for each other tells
   the same, the bytes of a run tell the stack of every sample, each frame with its file, scope and location, up
   to the first frame that cannot be told.
   */
  lemma {:induction false} BytesTellTheStacks(v: Version, o: Options, w: Remote, used: set<PyFrame>, smps: seq<Sample>)
    requires AllAgree(v, w, used) && AllWithin(w, used, smps)
    ensures Tells(v, o, w, smps)
  {
    hide AllSeen, AllTrue, Bytes, AllAgree, AllWithin, ProperMemory;
    RunTells(v, o, w, used, smps);
    BytesSeen(v, o, smps);
  }
}
