/** Exactly when the output can be trusted: runs of one-frame samples show where it cannot. */
module SamplerLimits {
  import opened Common
  import opened FrameKeys
  import opened Stacks
  import opened SamplerModel
  import opened RunInduction
  import opened MojoReader
  import opened SamplerRun
  import opened SamplerTruth
  import L = LruModel
  import M = MojoModel
  import LineTable

  // ---- A thread that runs one frame -----------------------------------------------------------------------

  const PLAIN := Options(false, false, false, false, false, false)

  function One(w: Remote, f: PyFrame): Sample {
    Sample(0, 0, 0, false, false, false, 1, 0, 1, Some(1), map[1 := RemoteFrame(0, f.code, f.lasti)], w)
  }

  /** The frame as it is found there. */
  function Found(f: PyFrame): PyFrame {
    PyFrame(1, f.code, f.lasti)
  }

  lemma {:induction false} FoundProper(f: PyFrame)
    requires Proper(f)
    ensures Proper(Found(f)) && AllProper([Found(f)]) && CacheKey(Found(f)) == CacheKey(f) && CacheKey(f) != 0
  {
  }

  lemma {:induction false} OneUnwinds(v: Version, w: Remote, f: PyFrame)
    requires Proper(f)
    ensures ProperMemory(One(w, f).mem)
    ensures Unwound(v, One(w, f)) == ([Found(f)], false)
  {
    var mem, size := One(w, f).mem, MAX_STACK_SIZE;
    WalkNone(mem, 1);
    WalkOneMore(mem, 1, 0);
    assert !GivesUp(mem, 1, 0, size) && Climb(mem, 1, 0, size) == Climb(mem, 1, 1, size);
    assert Walk(mem, 1, 1) == [PyFrame(1, f.code, f.lasti)];
    assert !GivesUp(mem, 1, 1, size) && Climb(mem, 1, 1, size) == (1, false);
  }

  /** What such a sample says: a line, or a mark in its place. */
  function Single(line: Option<Item>): seq<Item> {
    Report(PLAIN, One(Remote(map[], map[]), PyFrame(0, 0, 0)), if line.None? then 1 else 0,
           if line.None? then [] else [line.value])
  }

  lemma {:induction false} SingleSays(line: Option<Item>)
    ensures |Single(line)| > 1 && Single(line)[1] == if line.None? then Mark(M.FrameInvalid) else line.value
  {
    hide Tail, Marks;
    var begin, end := [Mark(M.Stack(0, 0, 0))], Marks(Tail(PLAIN, One(Remote(map[], map[]), PyFrame(0, 0, 0))));
    if line.None? {
      assert Single(line) == begin + [Mark(M.FrameInvalid)] + [] + end;
    } else {
      assert Single(line) == begin + [] + [line.value] + end;
    }
  }

  lemma {:induction false} ResolveSingle(v: Version, s: State, w: Remote, f: PyFrame)
    requires Ready(s) && Proper(f) && AllProper([f])
    ensures var (r, frame) := ResolveOne(v, s, w, f);
      Resolve(v, s, w, [f]) == (r, if frame.None? then [] else [frame.value])
  {
    hide ResolveOne, Proper, AllProper;
    assert [f][..0] == [] && [f][..1] == [f];
    ResolveStep(v, s, w, [f], 0);
    ResolveNone(v, s, w, [f][..0]);
    var frame := ResolveOne(v, s, w, f).1;
    assert frame.Some? ==> [] + [frame.value] == [frame.value];
  }

  ghost function Resolved(v: Version, s: State, w: Remote, f: PyFrame): (State, Option<CodeFrame>)
    requires Shaped(s) && Proper(f)
  {
    FoundProper(f);
    ResolveOne(v, Begin(s, One(w, f)), w, Found(f))
  }

  lemma {:induction false} CollectOne(v: Version, s: State, w: Remote, f: PyFrame)
    requires Shaped(s) && Proper(f)
    ensures ProperMemory(One(w, f).mem) && Shaped(Begin(s, One(w, f)))
    ensures var smp := One(w, f); var (r, frame) := Resolved(v, s, w, f);
      && Collect(v, Begin(s, smp), smp) == (InvalidIf(frame.None?, r), if frame.None? then [] else [frame.value])
      && Faults(v, Begin(s, smp), smp) == if frame.None? then 1 else 0
  {
    hide Shaped, Resolve, ResolveOne, Proper, AllProper, Unwound, ProperMemory, InvalidIf;
    var smp := One(w, f);
    BeginShows(s, smp);
    FoundProper(f);
    OneUnwinds(v, w, f);
    var s0 := Begin(s, smp);
    ShapedReady(s0);
    ResolveSingle(v, s0, w, Found(f));
    NotBad(s0);
    if v.V311? {
      CollectOnce(v, s0, smp);
    }
  }

  lemma {:induction false} NotBad(s: State)
    ensures InvalidIf(false, s) == s
  {
  }

  ghost function LineSeen(t: Tables, frame: Option<CodeFrame>): Option<Item> {
    if frame.None? then None else Some(Line(LookUp(t, frame.value.key)))
  }

  ghost function LineShown(strings: L.Lru<Text>, frame: Option<CodeFrame>): Option<Item> {
    if frame.None? then None else Some(Line(Some(RowOf(strings, frame.value))))
  }

  lemma {:induction false} SingleIs(w: Remote, f: PyFrame, line: Option<Item>, faults: nat, lines: seq<Item>)
    requires faults == if line.None? then 1 else 0
    requires lines == if line.None? then [] else [line.value]
    ensures Report(PLAIN, One(w, f), faults, lines) == Single(line)
  {
  }

  lemma {:induction false} NotSkipped(w: Remote, f: PyFrame)
    ensures !Skips(PLAIN, One(w, f), 0)
  {
  }

  /** What is seen of the sample and what is shown of it. */
  lemma {:induction false} OneSeen(v: Version, s: State, w: Remote, f: PyFrame)
    requires Shaped(s) && Proper(f)
    ensures ProperMemory(One(w, f).mem)
    ensures var (r, frame) := Resolved(v, s, w, f);
      && Seen(v, PLAIN, s, One(w, f)) == Single(LineSeen(Defined(r.out), frame))
      && Shown(v, PLAIN, s, One(w, f)) == Single(LineShown(r.strings, frame))
  {
    hide Shaped, Collect, Faults, Resolved, ProperMemory, Report, Defined, LookUp, RowOf, Begin, Proper;
    var smp := One(w, f);
    CollectOne(v, s, w, f);
    var (r, frame) := Resolved(v, s, w, f);
    InvalidShows(frame.None?, r);
    var (s1, frames) := Collect(v, Begin(s, smp), smp);
    if frame.Some? {
      assert frames[1..] == [];
      assert Read(Defined(r.out), frames) == [] + [Line(LookUp(Defined(r.out), frames[0].key))];
      assert Lines(r.strings, frames) == [] + [Line(Some(RowOf(r.strings, frames[0])))];
      NotBad(r);
    }
    NotSkipped(w, f);
    SingleIs(w, f, LineSeen(Defined(r.out), frame), if frame.None? then 1 else 0, Read(Defined(r.out), frames));
    SingleIs(w, f, LineShown(r.strings, frame), if frame.None? then 1 else 0, Lines(r.strings, frames));
  }

  lemma {:induction false} KnownOne(v: Version, w: Remote, f: PyFrame)
    ensures Known(v, w, [f]) == if TrueRow(v, w, f).Some? then 1 else 0
  {
    assert [f][..0] == [];
  }

  ghost function LineTrue(row: Option<Row>): Option<Item> {
    if row.None? then None else Some(Line(row))
  }

  /** What is true of it. */
  lemma {:induction false} OneTrue(v: Version, w: Remote, f: PyFrame)
    requires Proper(f)
    ensures ProperMemory(One(w, f).mem)
    ensures Truth(v, PLAIN, w, One(w, f)) == Single(LineTrue(TrueRow(v, w, f)))
  {
    hide TrueRow, Proper, Unwound, Report, Stack, StackOf;
    var pf, row := Found(f), TrueRow(v, w, f);
    OneUnwinds(v, w, f);
    StackIsUnwound(v, One(w, f));
    KnownOne(v, w, pf);
    assert TrueRow(v, w, pf) == row by { FoundRow(v, w, f); }
    assert [pf][1..] == [] && [pf][..1] == [pf] && [pf][..0] == [];
    assert TrueLines(v, w, [pf]) == [] + [Line(TrueRow(v, w, pf))];
    NotSkipped(w, f);
    SingleIs(w, f, LineTrue(row), if row.None? then 1 else 0, TrueLines(v, w, [pf][..if row.None? then 0 else 1]));
  }

  lemma {:induction false} FoundRow(v: Version, w: Remote, f: PyFrame)
    ensures TrueRow(v, w, Found(f)) == TrueRow(v, w, f)
  {
  }

  /** After the sample, caches and definitions are those of the resolution. */
  lemma {:induction false} AfterOne(v: Version, s: State, w: Remote, f: PyFrame)
    requires Shaped(s) && Proper(f)
    ensures ProperMemory(One(w, f).mem)
    ensures var r := Emit(v, PLAIN, s, One(w, f)); var s1 := Resolved(v, s, w, f).0;
      && Shaped(r) && r.frames == s1.frames && r.strings == s1.strings
      && Defined(r.out) == Defined(s1.out)
  {
    hide Shaped, Collect, Resolved, ProperMemory, Defined, Proper, Refs, Tail, Begin, Plain;
    var smp := One(w, f);
    CollectOne(v, s, w, f);
    EmitShaped(v, PLAIN, s, smp);
    var (s1, frame) := Resolved(v, s, w, f);
    InvalidShows(frame.None?, s1);
    var (s2, frames) := Collect(v, Begin(s, smp), smp);
    RefsRead(s2.out, frames);
    TailPlain(PLAIN, smp);
    PlainShows(s2.out + Refs(frames), Tail(PLAIN, smp));
  }

  // ---- Runs of such threads ---------------------------------------------------------------------------------

  datatype Visit = Visit(remote: Remote, frame: PyFrame)

  ghost predicate AllProperVisits(visits: seq<Visit>) {
    forall i :: 0 <= i < |visits| ==> Proper(visits[i].frame)
  }

  function Ones(visits: seq<Visit>): (smps: seq<Sample>)
    ensures |smps| == |visits|
  {
    seq(|visits|, i requires 0 <= i < |visits| => One(visits[i].remote, visits[i].frame))
  }

  lemma {:induction false} OnesProper(visits: seq<Visit>)
    requires AllProperVisits(visits)
    ensures AllProperMemory(Ones(visits))
  {
    hide Proper, ProperMemory;
    forall i | 0 <= i < |visits| ensures ProperMemory(Ones(visits)[i].mem) {
      OneUnwinds(Old, visits[i].remote, visits[i].frame);
    }
  }

  ghost function After(v: Version, visits: seq<Visit>): (s: State)
    requires AllProperVisits(visits)
    ensures Shaped(s)
  {
    OnesProper(visits);
    RunSeen(v, PLAIN, Ones(visits));
    Run(v, PLAIN, Start(), Ones(visits))
  }

  lemma {:induction false} AfterNone(v: Version)
    ensures After(v, []) == Start()
  {
    RunNone(v, PLAIN, Start(), Ones([]));
  }

  lemma {:induction false} OneMoreVisit(visits: seq<Visit>, last: Visit)
    requires AllProperVisits(visits) && Proper(last.frame)
    ensures AllProperVisits(visits + [last])
    ensures Ones(visits + [last]) == Ones(visits) + [One(last.remote, last.frame)]
  {
    hide Proper;
  }

  lemma {:induction false} AfterOneMore(v: Version, visits: seq<Visit>, w: Remote, f: PyFrame)
    requires AllProperVisits(visits) && Proper(f)
    ensures AllProperVisits(visits + [Visit(w, f)])
    ensures var r := After(v, visits + [Visit(w, f)]); var s1 := Resolved(v, After(v, visits), w, f).0;
      r.frames == s1.frames && r.strings == s1.strings && Defined(r.out) == Defined(s1.out)
  {
    hide AllProperVisits, Shaped, Ones, Run, Resolved, Defined, Emit, Proper, One;
    var all := visits + [Visit(w, f)];
    OneMoreVisit(visits, Visit(w, f));
    OnesProper(visits);
    OnesProper(all);
    RunOneMore(v, PLAIN, Start(), Ones(all));
    assert Ones(all)[..|visits|] == Ones(visits);
    AfterOne(v, After(v, visits), w, f);
  }

  lemma {:induction false} LastOf(xs: seq<Item>, ys: seq<Item>, line: Option<Item>, line': Option<Item>)
    requires xs == ys && xs + Single(line) == ys + Single(line')
    requires line.Some? ==> line.value.Line?
    requires line'.Some? ==> line'.value.Line?
    ensures line == line'
  {
    hide Single;
    SingleSays(line);
    SingleSays(line');
    assert (xs + Single(line))[|xs| + 1] == Single(line)[1] && (ys + Single(line'))[|xs| + 1] == Single(line')[1];
  }

  /** If two runs are shown as they were resolved, so is the thread that the one has beyond the other. */
  lemma {:induction false} LastShown(v: Version, visits: seq<Visit>, w: Remote, f: PyFrame)
    requires AllProperVisits(visits) && Proper(f)
    requires Shows(v, PLAIN, Ones(visits)) && Shows(v, PLAIN, Ones(visits + [Visit(w, f)]))
    ensures var (r, frame) := Resolved(v, After(v, visits), w, f);
      frame.Some? ==> LookUp(Defined(r.out), frame.value.key) == Some(RowOf(r.strings, frame.value))
  {
    hide AllProperVisits, Shaped, Ones, Run, Resolved, Defined, LookUp, RowOf, Seen, Shown, Bytes, Proper, One, Single,
      ProperMemory;
    var all, s := visits + [Visit(w, f)], After(v, visits);
    OneMoreVisit(visits, Visit(w, f));
    OnesProper(visits);
    OnesProper(all);
    BytesSeen(v, PLAIN, Ones(visits));
    BytesSeen(v, PLAIN, Ones(all));
    assert Ones(all)[..|visits|] == Ones(visits);
    OneSeen(v, s, w, f);
    var (r, frame) := Resolved(v, s, w, f);
    LastOf(AllSeen(v, PLAIN, Ones(visits)), AllShown(v, PLAIN, Ones(visits)),
           LineSeen(Defined(r.out), frame), LineShown(r.strings, frame));
  }

  /** And if they are told as they were. */
  lemma {:induction false} LastTold(v: Version, visits: seq<Visit>, w: Remote, f: PyFrame)
    requires AllProperVisits(visits) && Proper(f)
    requires Tells(v, PLAIN, w, Ones(visits)) && Tells(v, PLAIN, w, Ones(visits + [Visit(w, f)]))
    ensures var (r, frame) := Resolved(v, After(v, visits), w, f);
      && (frame.Some? <==> TrueRow(v, w, f).Some?)
      && (frame.Some? ==> LookUp(Defined(r.out), frame.value.key) == TrueRow(v, w, f))
  {
    hide AllProperVisits, Shaped, Ones, Run, Resolved, Defined, LookUp, Seen, Truth, Bytes, Proper, One, Single,
      ProperMemory, TrueRow;
    var all, s := visits + [Visit(w, f)], After(v, visits);
    OneMoreVisit(visits, Visit(w, f));
    OnesProper(visits);
    OnesProper(all);
    BytesSeen(v, PLAIN, Ones(visits));
    BytesSeen(v, PLAIN, Ones(all));
    assert Ones(all)[..|visits|] == Ones(visits);
    OneSeen(v, s, w, f);
    OneTrue(v, w, f);
    var (r, frame) := Resolved(v, s, w, f);
    LastOf(AllSeen(v, PLAIN, Ones(visits)), AllTrue(v, PLAIN, w, Ones(visits)),
           LineSeen(Defined(r.out), frame), LineTrue(TrueRow(v, w, f)));
  }

  // ---- What a visit does to caches and definitions ----------------------------------------------------------

  lemma {:induction false} InternDefinesNoFrame(s: State, strings: map<Key, Text>, key: Key)
    requires Ready(s)
    ensures Defined(Intern(s, strings, key).0.out).frames == Defined(s.out).frames
  {
    hide Defined, L.HitValue, L.Hit, L.Store;
    if key in strings {
      OneMore(s.out, M.StringDef(M.Ref(key), strings[key]));
    }
  }

  lemma {:induction false} FrameFromCodeDefinesNoFrame(v: Version, s: State, w: Remote, f: PyFrame)
    requires Ready(s)
    ensures Defined(FrameFromCode(v, s, w, f.code, f.lasti).0.out).frames == Defined(s.out).frames
  {
    hide Defined, Intern, MakeFrame;
    if f.code in w.codes {
      InternDefinesNoFrame(s, w.strings, w.codes[f.code].filename);
      var s1 := Intern(s, w.strings, w.codes[f.code].filename).0;
      InternDefinesNoFrame(s1, w.strings, w.codes[f.code].scope);
    }
  }

  ghost predicate IsMade(v: Version, w: Remote, f: PyFrame, frame: CodeFrame) {
    f.code in w.codes && MakeFrame(v, f.code, w.codes[f.code], f.lasti) == Some(frame)
  }

  /** A frame that is not cached is made, cached and defined. */
  lemma {:induction false} ResolvedByMaking(v: Version, s: State, w: Remote, f: PyFrame)
    requires Shaped(s) && Proper(f) && CacheKey(f) !in L.Keys(s.frames.pairs) && |s.frames.pairs| < MAX_STACK_SIZE
    ensures var (r, frame) := Resolved(v, s, w, f);
      frame.Some? ==>
        && IsMade(v, w, f, frame.value)
        && r.frames.pairs == [L.Pair(CacheKey(f), frame.value)] + s.frames.pairs
        && Defined(r.out).frames == Defined(s.out).frames[frame.value.key := FrameEvent(frame.value)]
        && Held(r.strings, frame.value.filename) && Held(r.strings, frame.value.scope)
  {
    hide Shaped, CacheKey, FrameFromCode, Defined, Items, Proper, Held, L.HitValue, KeptByResolving, MakeFrame;
    var s0, pf := Begin(s, One(w, f)), Found(f);
    BeginShows(s, One(w, f));
    FoundProper(f);
    ShapedReady(s);
    L.MissChangesNothing(s0.frames, CacheKey(f));
    SilentKept(v, Items(s0.out));
    FrameFromCodeKeeps(v, Silent(Items(s0.out)), Anything(), s0, w, pf);
    FrameFromCodeDefinesNoFrame(v, s0, w, pf);
    var (s1, made) := FrameFromCode(v, s0, w, f.code, f.lasti);
    if made.Some? {
      MadeHeld(v, s1, w, pf, made.value);
      OneMore(s1.out, FrameEvent(made.value));
    }
  }

  /** One that is cached is what is cached, and nothing is defined. */
  lemma {:induction false} ResolvedFromCache(v: Version, s: State, w: Remote, f: PyFrame, frame: CodeFrame)
    requires Shaped(s) && Proper(f) && L.Pair(CacheKey(f), frame) in s.frames.pairs
    ensures var (r, got) := Resolved(v, s, w, f);
      got == Some(frame) && Defined(r.out) == Defined(s.out) && r.strings == s.strings
  {
    hide Shaped, CacheKey, FrameFromCode, Defined, Items, Proper, L.Hit;
    BeginShows(s, One(w, f));
    FoundProper(f);
    L.WellFormedKeys(s.frames) by { ShapedReady(s); }
    L.FindPair(s.frames.pairs, s.frames.pairs, L.Pair(CacheKey(f), frame));
  }

  // ---- Telling the truth --------------------------------------------------------------------------------------

  /** The run of these visits is told as it was, and so are those that stop earlier. */
  ghost predicate TellsVisits(v: Version, w: Remote, visits: seq<Visit>) {
    forall n :: 0 <= n <= |visits| ==> Tells(v, PLAIN, w, Ones(visits[..n]))
  }

  lemma {:induction false} TellsOneMore(v: Version, w: Remote, visits: seq<Visit>, last: Visit)
    requires TellsVisits(v, w, visits + [last])
    ensures TellsVisits(v, w, visits)
    ensures Tells(v, PLAIN, w, Ones(visits)) && Tells(v, PLAIN, w, Ones(visits + [last]))
  {
    hide Tells, Ones;
    var all := visits + [last];
    assert all[..|visits|] == visits && all[..|all|] == all;
    forall n | 0 <= n <= |visits| ensures Tells(v, PLAIN, w, Ones(visits[..n])) {
      assert all[..n] == visits[..n];
    }
  }

  /** The caches and definitions after the frames were made one after the other. */
  ghost predicate Knows(s: State, v: Version, w: Remote, f: PyFrame, frame: CodeFrame) {
    && L.Pair(CacheKey(f), frame) in s.frames.pairs && IsMade(v, w, f, frame)
    && frame.key in Defined(s.out).frames && Defined(s.out).frames[frame.key] == FrameEvent(frame)
  }

  /** One visit, of a frame that can be told. */
  lemma {:induction false} ToldOnce(v: Version, w: Remote, f: PyFrame) returns (frame: CodeFrame)
    requires Proper(f) && TrueRow(v, w, f).Some? && TellsVisits(v, w, [Visit(w, f)])
    ensures AllProperVisits([Visit(w, f)])
    ensures var s := After(v, [Visit(w, f)]);
      && Knows(s, v, w, f, frame) && s.frames.pairs == [L.Pair(CacheKey(f), frame)]
      && LookUp(Defined(s.out), frame.key) == TrueRow(v, w, f)
  {
    hide Proper, Shaped, CacheKey, Resolved, Defined, LookUp, TrueRow, IsMade, Ones, TellsVisits, Tells, Held;
    assert [] + [Visit(w, f)] == [Visit(w, f)];
    TellsOneMore(v, w, [], Visit(w, f));
    LastTold(v, [], w, f);
    AfterNone(v);
    ResolvedByMaking(v, Start(), w, f);
    AfterOneMore(v, [], w, f);
    frame := Resolved(v, Start(), w, f).1.value;
    var s1 := Resolved(v, Start(), w, f).0;
    assert s1.frames.pairs == [L.Pair(CacheKey(f), frame)] + [];
  }

  /** Two frames that share a cache key and differ: after the one, the other is told as the first. */
  lemma {:induction false} DisagreementShows(v: Version, w: Remote, f: PyFrame, g: PyFrame)
    requires Proper(f) && Proper(g) && CacheKey(f) == CacheKey(g)
    requires TrueRow(v, w, f).Some? && TrueRow(v, w, f) != TrueRow(v, w, g)
    ensures !TellsVisits(v, w, [Visit(w, f), Visit(w, g)])
  {
    hide Proper, Shaped, CacheKey, Resolved, Defined, LookUp, TrueRow, IsMade, Ones, TellsVisits, Tells;
    var a, b := Visit(w, f), Visit(w, g);
    if TellsVisits(v, w, [a, b]) {
      assert [a] + [b] == [a, b];
      TellsOneMore(v, w, [a], b);
      var frame := ToldOnce(v, w, f);
      ResolvedFromCache(v, After(v, [a]), w, g, frame);
      LastTold(v, [a], w, g);
    }
  }

  /** Two visits, of frames with different cache keys. */
  lemma {:induction false} ToldTwice(v: Version, w: Remote, f: PyFrame, g: PyFrame)
    returns (frame: CodeFrame, other: CodeFrame)
    requires Proper(f) && Proper(g) && CacheKey(f) != CacheKey(g)
    requires TrueRow(v, w, f).Some? && TrueRow(v, w, g).Some?
    requires TellsVisits(v, w, [Visit(w, f), Visit(w, g)])
    ensures AllProperVisits([Visit(w, f), Visit(w, g)])
    ensures var s := After(v, [Visit(w, f), Visit(w, g)]);
      && Knows(s, v, w, g, other) && L.Pair(CacheKey(f), frame) in s.frames.pairs && IsMade(v, w, f, frame)
      && (frame.key != other.key ==> Knows(s, v, w, f, frame))
      && LookUp(Defined(s.out), other.key) == TrueRow(v, w, g)
  {
    hide Proper, Shaped, CacheKey, Resolved, Defined, LookUp, TrueRow, IsMade, Ones, TellsVisits, Tells, Held;
    var a, b := Visit(w, f), Visit(w, g);
    assert [a] + [b] == [a, b];
    TellsOneMore(v, w, [a], b);
    frame := ToldOnce(v, w, f);
    var s := After(v, [a]);
    LastTold(v, [a], w, g);
    ResolvedByMaking(v, s, w, g);
    AfterOneMore(v, [a], w, g);
    other := Resolved(v, s, w, g).1.value;
    var r := After(v, [a, b]);
    assert r.frames.pairs[0] == L.Pair(CacheKey(g), other) && r.frames.pairs[1] == L.Pair(CacheKey(f), frame);
  }

  /** And a third, of the first frame again. */
  lemma {:induction false} ToldThrice(v: Version, w: Remote, f: PyFrame, g: PyFrame)
    returns (frame: CodeFrame, other: CodeFrame)
    requires Proper(f) && Proper(g) && CacheKey(f) != CacheKey(g)
    requires TrueRow(v, w, f).Some? && TrueRow(v, w, g).Some?
    requires TellsVisits(v, w, [Visit(w, f), Visit(w, g), Visit(w, f)])
    ensures AllProperVisits([Visit(w, f), Visit(w, g)])
    ensures var s := After(v, [Visit(w, f), Visit(w, g)]); var t := Defined(s.out);
      && Knows(s, v, w, g, other) && (frame.key != other.key ==> Knows(s, v, w, f, frame))
      && IsMade(v, w, f, frame) && IsMade(v, w, g, other)
      && LookUp(t, frame.key) == TrueRow(v, w, f) && LookUp(t, other.key) == TrueRow(v, w, g)
  {
    hide Proper, Shaped, CacheKey, Resolved, Defined, LookUp, TrueRow, IsMade, Ones, TellsVisits, Tells;
    var a, b := Visit(w, f), Visit(w, g);
    assert [a, b] + [a] == [a, b, a];
    TellsOneMore(v, w, [a, b], a);
    frame, other := ToldTwice(v, w, f, g);
    LastTold(v, [a, b], w, f);
    ResolvedFromCache(v, After(v, [a, b]), w, f, frame);
  }

  lemma {:induction false} MadeStored(v: Version, w: Remote, f: PyFrame, frame: CodeFrame)
    requires IsMade(v, w, f, frame)
    ensures frame.key == Stored(v, f)
  {
    MadeKey(v, f, w.codes[f.code], frame);
  }

  /** Two frames that share only a stored key and differ: after both, the first is told as the other. */
  lemma {:induction false} StoredDisagreementShows(v: Version, w: Remote, f: PyFrame, g: PyFrame)
    requires Proper(f) && Proper(g) && CacheKey(f) != CacheKey(g) && Stored(v, f) == Stored(v, g)
    requires TrueRow(v, w, f).Some? && TrueRow(v, w, g).Some? && TrueRow(v, w, f) != TrueRow(v, w, g)
    ensures !TellsVisits(v, w, [Visit(w, f), Visit(w, g), Visit(w, f)])
  {
    hide Proper, Shaped, CacheKey, Stored, Defined, LookUp, TrueRow, IsMade, TellsVisits;
    if TellsVisits(v, w, [Visit(w, f), Visit(w, g), Visit(w, f)]) {
      var frame, other := ToldThrice(v, w, f, g);
      MadeStored(v, w, f, frame);
      MadeStored(v, w, g, other);
    }
  }

  /** A frame that reads as it is has its strings read as they are. */
  lemma {:induction false} ReadsNames(v: Version, w: Remote, s: State, f: PyFrame, frame: CodeFrame, a: Key)
    requires Knows(s, v, w, f, frame) && TrueRow(v, w, f).Some? && LookUp(Defined(s.out), frame.key) == TrueRow(v, w, f)
    requires a in Names(w, f)
    ensures var t := Defined(s.out); M.Ref(a) in t.strings && t.strings[M.Ref(a)] == w.strings[a]
  {
    hide Defined, FrameKey, Locate, Stored, CacheKey, Proper;
    MadeKey(v, f, w.codes[f.code], frame);
  }

  /** A frame whose two strings share a reference and differ is not told. */
  lemma {:induction false} OwnClashShows(v: Version, w: Remote, f: PyFrame)
    requires Proper(f) && TrueRow(v, w, f).Some? && Clash(w, f, f)
    ensures !TellsVisits(v, w, [Visit(w, f)])
  {
    hide Proper, Shaped, Knows, Defined, LookUp, TrueRow, TellsVisits, Names;
    if TellsVisits(v, w, [Visit(w, f)]) {
      var frame := ToldOnce(v, w, f);
      var a, b :| a in Names(w, f) && b in Names(w, f) && Confused(w, a, b);
      ReadsNames(v, w, After(v, [Visit(w, f)]), f, frame, a);
      ReadsNames(v, w, After(v, [Visit(w, f)]), f, frame, b);
    }
  }

  /** Two frames with different keys whose strings share a reference and differ: after both, the first is not told. */
  lemma {:induction false} ClashShows(v: Version, w: Remote, f: PyFrame, g: PyFrame)
    requires Proper(f) && Proper(g) && CacheKey(f) != CacheKey(g) && Stored(v, f) != Stored(v, g)
    requires TrueRow(v, w, f).Some? && TrueRow(v, w, g).Some? && Clash(w, f, g)
    ensures !TellsVisits(v, w, [Visit(w, f), Visit(w, g), Visit(w, f)])
  {
    hide Proper, Shaped, Knows, IsMade, CacheKey, Stored, Defined, LookUp, TrueRow, TellsVisits, Names;
    if TellsVisits(v, w, [Visit(w, f), Visit(w, g), Visit(w, f)]) {
      var frame, other := ToldThrice(v, w, f, g);
      MadeStored(v, w, f, frame);
      MadeStored(v, w, g, other);
      var s := After(v, [Visit(w, f), Visit(w, g)]);
      var a, b :| a in Names(w, f) && b in Names(w, g) && Confused(w, a, b);
      ReadsNames(v, w, s, f, frame, a);
      ReadsNames(v, w, s, g, other, b);
    }
  }

  /** A string that is read is defined, and one that is held is not defined again. */
  lemma {:induction false} InternDefines(s: State, strings: map<Key, Text>, key: Key)
    requires Shaped(s)
    ensures var r := Intern(s, strings, key).0;
      && Shaped(r) && (forall k :: Held(r.strings, k) ==> Held(s.strings, k) || k == key)
    ensures var t, t' := Defined(s.out), Defined(Intern(s, strings, key).0.out);
      if key == 0 || key !in strings || Held(s.strings, key) then t' == t
      else t' == Define(t, M.StringDef(M.Ref(key), strings[key]))
  {
    hide L.WellFormed, L.Hit, L.HitValue, L.Store, Defined, Define;
    HitValueHeld(s.strings, key);
    if Held(s.strings, key) {
      StringHitShaped(s, key);
      HitKeeps(s.strings, key);
      forall k | Held(L.Hit(s.strings, key), k) ensures Held(s.strings, k) {
        HeldExtends(L.Hit(s.strings, key), s.strings, k);
      }
    } else if key != 0 && key in strings {
      WithStringShaped(s, key, strings[key]);
      StoreKeeps(s.strings, key, strings[key]);
      OneMore(s.out, M.StringDef(M.Ref(key), strings[key]));
      var r := L.Store(s.strings, key, strings[key]);
      forall k | Held(r, k) ensures Held(s.strings, k) || k == key {
        HeldOneMore(s.strings, r, L.Pair(key, strings[key]), k);
      }
    }
  }

  lemma {:induction false} HeldOneMore(s: L.Lru<Text>, r: L.Lru<Text>, new': L.Pair<Text>, key: Key)
    requires Held(r, key) && forall p :: p in r.pairs ==> p == new' || p in s.pairs
    ensures Held(s, key) || key == new'.key
  {
    var p := r.pairs[L.IndexOf(r.pairs, key)];
    if p in s.pairs {
      PairHeld(s, p);
    }
  }

  /** Making a frame whose strings do not clash defines those that are not held, even if the frame cannot be told. */
  lemma {:induction false} NamesDefined(v: Version, s: State, w: Remote, f: PyFrame, a: Key)
    requires Shaped(s) && a in Names(w, f) && !Held(s.strings, a) && !Clash(w, f, f)
    ensures var t := Defined(FrameFromCode(v, s, w, f.code, f.lasti).0.out);
      M.Ref(a) in t.strings && t.strings[M.Ref(a)] == w.strings[a]
  {
    hide Shaped, Defined, Intern, Held, MakeFrame;
    var code := w.codes[f.code];
    var (s1, named) := Intern(s, w.strings, code.filename);
    InternDefines(s, w.strings, code.filename);
    InternNamed(s, w.strings, code.filename);
    InternDefines(s1, w.strings, code.scope);
    if code.scope in Names(w, f) {
      assert !Confused(w, code.scope, a);
    }
  }

  lemma {:induction false} InternNamed(s: State, strings: map<Key, Text>, key: Key)
    requires Ready(s) && key != 0 && key in strings
    ensures Intern(s, strings, key).1
  {
  }

  /** After the one frame was told, only its strings are held. */
  lemma {:induction false} HeldAfterOne(v: Version, w: Remote, f: PyFrame, a: Key)
    requires Proper(f) && f.origin == 0 && AllProperVisits([Visit(w, f)]) && Held(After(v, [Visit(w, f)]).strings, a)
    ensures a in Names(w, f)
  {
    hide Proper, Shaped, Founded, Names, Defined, EventsHonest, Run, Within;
    OneWithin(w, {f}, f);
    RunHonest(v, PLAIN, w, {f}, Ones([Visit(w, f)]));
    var s := After(v, [Visit(w, f)]);
    HeldReadable(w, {f}, Defined(s.out), s.strings, a);
  }

  /** The same with a frame that cannot be told: its strings are read all the same. */
  lemma {:induction false} ClashWithUntoldShows(v: Version, w: Remote, f: PyFrame, g: PyFrame)
    requires Proper(f) && Proper(g) && f.origin == 0 && CacheKey(f) != CacheKey(g)
    requires TrueRow(v, w, f).Some? && TrueRow(v, w, g).None? && Clash(w, f, g) && !Clash(w, g, g)
    ensures !TellsVisits(v, w, [Visit(w, f), Visit(w, g), Visit(w, f)])
  {
    hide Proper, Shaped, IsMade, CacheKey, Defined, LookUp, TrueRow, TellsVisits, Names, Resolved, Ones, Tells, Held;
    var x, y := Visit(w, f), Visit(w, g);
    if TellsVisits(v, w, [x, y, x]) {
      assert [x, y] + [x] == [x, y, x] && [x] + [y] == [x, y];
      TellsOneMore(v, w, [x, y], x);
      TellsOneMore(v, w, [x], y);
      var frame := ToldOnce(v, w, f);
      var s, r := After(v, [x]), After(v, [x, y]);
      LastTold(v, [x], w, g);
      AfterOneMore(v, [x], w, g);
      ResolvedInVain(v, s, w, g);
      LastTold(v, [x, y], w, f);
      ResolvedFromCache(v, r, w, f, frame);
      var a, b :| a in Names(w, f) && b in Names(w, g) && Confused(w, a, b);
      ReadsNames(v, w, r, f, frame, a);
      if b in Names(w, f) {
        ReadsNames(v, w, s, f, frame, a);
        ReadsNames(v, w, s, f, frame, b);
      } else {
        assert !Held(s.strings, b) by {
          if Held(s.strings, b) {
            HeldAfterOne(v, w, f, b);
          }
        }
        ResolvedNames(v, s, w, g, b);
      }
    }
  }

  /** A frame that cannot be made changes no frame. */
  lemma {:induction false} ResolvedInVain(v: Version, s: State, w: Remote, f: PyFrame)
    requires Shaped(s) && Proper(f) && Resolved(v, s, w, f).1.None?
    ensures var r := Resolved(v, s, w, f).0;
      r.frames == s.frames && Defined(r.out).frames == Defined(s.out).frames
  {
    hide Shaped, FrameFromCode, Defined, Proper, L.HitValue, L.Hit, CacheKey;
    BeginShows(s, One(w, f));
    FrameFromCodeDefinesNoFrame(v, Begin(s, One(w, f)), w, Found(f));
  }

  lemma {:induction false} ResolvedNames(v: Version, s: State, w: Remote, f: PyFrame, a: Key)
    requires Shaped(s) && Proper(f) && Resolved(v, s, w, f).1.None?
    requires a in Names(w, f) && !Held(s.strings, a) && !Clash(w, f, f)
    ensures var t := Defined(Resolved(v, s, w, f).0.out);
      M.Ref(a) in t.strings && t.strings[M.Ref(a)] == w.strings[a]
  {
    hide Shaped, FrameFromCode, Defined, Proper, L.HitValue, L.Hit, CacheKey, Names, Clash, Held;
    BeginShows(s, One(w, f));
    NamesDefined(v, Begin(s, One(w, f)), w, f, a);
  }

  // ---- Exactly when every run is told as it was ---------------------------------------------------------------

  ghost predicate AlwaysTells(v: Version, w: Remote, used: set<PyFrame>) {
    forall o: Options, smps: seq<Sample> :: AllWithin(w, used, smps) ==> Tells(v, o, w, smps)
  }

  /** Frames that a run can come across. */
  ghost predicate Usual(used: set<PyFrame>) {
    forall f :: f in used ==> f.origin == 0 && Proper(f)
  }

  /**
   What no short run shows: two frames that tell the same and share a key, though their strings clash, and a
   frame that cannot be told though its strings can, and clash with each other as well.
   */
  ghost predicate Odd(v: Version, w: Remote, f: PyFrame, g: PyFrame) {
    if TrueRow(v, w, g).None? then Clash(w, g, g)
    else TrueRow(v, w, f) == TrueRow(v, w, g) && (CacheKey(f) == CacheKey(g) || Stored(v, f) == Stored(v, g))
  }

  ghost predicate Ordinary(v: Version, w: Remote, used: set<PyFrame>) {
    forall f, g :: f in used && g in used && f != g && TrueRow(v, w, f).Some? && Clash(w, f, g) ==> !Odd(v, w, f, g)
  }

  lemma {:induction false} OneWithin(w: Remote, used: set<PyFrame>, f: PyFrame)
    requires Usual(used) && f in used
    ensures Within(w, used, One(w, f)) && Proper(f)
  {
    OneUnwinds(Old, w, f);
  }

  lemma {:induction false} AlwaysTellsVisits(v: Version, w: Remote, used: set<PyFrame>, visits: seq<Visit>)
    requires Usual(used) && AlwaysTells(v, w, used)
    requires forall visit :: visit in visits ==> visit.remote == w && visit.frame in used
    ensures TellsVisits(v, w, visits)
  {
    hide Usual, Within, One, Tells;
    forall n | 0 <= n <= |visits| ensures Tells(v, PLAIN, w, Ones(visits[..n])) {
      var some := visits[..n];
      forall i | 0 <= i < n ensures Within(w, used, Ones(some)[i]) {
        assert some[i] == visits[i] && visits[i] in visits;
        OneWithin(w, used, some[i].frame);
      }
    }
  }

  /**
   Every run is told as it was exactly when frames that share a cache key tell the same, so do frames that share
   a stored key, and strings that share a reference are equal.
   */
  lemma {:induction false} TellsExactly(v: Version, w: Remote, used: set<PyFrame>)
    requires Usual(used) && Ordinary(v, w, used)
    ensures AlwaysTells(v, w, used) <==> AllAgree(v, w, used)
  {
    hide Proper, TrueRow, CacheKey, Stored, Tells, AllWithin, TellsVisits, Clash, AllAgree;
    if AllAgree(v, w, used) {
      forall o: Options, smps: seq<Sample> | AllWithin(w, used, smps) ensures Tells(v, o, w, smps) {
        BytesTellTheStacks(v, o, w, used, smps);
      }
    }
    if AlwaysTells(v, w, used) {
      hide AlwaysTells;
      ToldAgree(v, w, used);
    }
  }

  lemma {:induction false} ToldAgree(v: Version, w: Remote, used: set<PyFrame>)
    requires Usual(used) && Ordinary(v, w, used) && AlwaysTells(v, w, used)
    ensures AllAgree(v, w, used)
  {
    hide Proper, TrueRow, CacheKey, Stored, Tells, AlwaysTells, TellsVisits, Clash;
    forall f, g | f in used && g in used && CacheKey(f) == CacheKey(g) ensures TrueRow(v, w, f) == TrueRow(v, w, g) {
      AlwaysTellsVisits(v, w, used, [Visit(w, f), Visit(w, g)]);
      AlwaysTellsVisits(v, w, used, [Visit(w, g), Visit(w, f)]);
      if TrueRow(v, w, f) != TrueRow(v, w, g) {
        if TrueRow(v, w, f).Some? {
          DisagreementShows(v, w, f, g);
        } else {
          DisagreementShows(v, w, g, f);
        }
      }
    }
    assert Agree(v, w, used);
    forall f, g | f in used && g in used && Stored(v, f) == Stored(v, g) ensures TellSame(v, w, f, g) {
      if CacheKey(f) != CacheKey(g) && !TellSame(v, w, f, g) {
        AlwaysTellsVisits(v, w, used, [Visit(w, f), Visit(w, g), Visit(w, f)]);
        StoredDisagreementShows(v, w, f, g);
      }
    }
    assert StoredAgree(v, w, used);
    forall f, g | f in used && g in used && TrueRow(v, w, f).Some? ensures !Clash(w, f, g) {
      if Clash(w, f, g) {
        AlwaysTellsVisits(v, w, used, [Visit(w, f)]);
        AlwaysTellsVisits(v, w, used, [Visit(w, f), Visit(w, g), Visit(w, f)]);
        if f == g {
          OwnClashShows(v, w, f);
        } else if TrueRow(v, w, g).Some? {
          ClashShows(v, w, f, g);
        } else {
          ClashWithUntoldShows(v, w, f, g);
        }
      }
    }
  }

  /** Where keys and addresses are told apart: exactly when frames that share a cache key tell the same. */
  lemma {:induction false} TellsExactlyApart(v: Version, w: Remote, used: set<PyFrame>, addrs: set<Key>)
    requires Usual(used) && KeysApart(v, used) && NamesIn(w, addrs) && Injective(addrs)
    ensures AlwaysTells(v, w, used) <==> Agree(v, w, used)
  {
    hide KeysApart, NamesIn, Injective, TrueRow, AlwaysTells, Usual, CacheKey, Stored, Clash, Agree, AllAgree;
    forall f, g ensures !Clash(w, f, g) {
      NoClash(w, addrs, f, g);
    }
    AgreeIsEnough(v, w, used, addrs);
    TellsExactly(v, w, used);
  }

  // ---- Examples -----------------------------------------------------------------------------------------------

  /** Two code objects in a module, with empty tables and first lines 1 and 2. */
  function TwoCodes(c: Key, d: Key): Remote {
    var nowhere := LineTable.Location(0, 0, 0, 0);
    Remote(map[c := Code(8, 16, 1, Some([]), nowhere), d := Code(8, 16, 2, Some([]), nowhere)],
           map[8 := [109], 16 := [102]])
  }

  lemma {:induction false} TwoCodesDiffer(v: Version, f: PyFrame, g: PyFrame)
    requires f.code != g.code && !v.V311?
    ensures var w := TwoCodes(f.code, g.code);
      TrueRow(v, w, f).Some? && TrueRow(v, w, g).Some? && TrueRow(v, w, f) != TrueRow(v, w, g)
  {
  }

  /** Two code objects whose addresses differ by 2^27. */
  lemma {:induction false} DistantCodesMistold() returns (w: Remote, f: PyFrame, g: PyFrame)
    ensures g.code == f.code + M.REF_SPAN && f.lasti == g.lasti && CacheKey(f) == CacheKey(g)
    ensures TrueRow(Old, w, f).Some? && TrueRow(Old, w, g).Some? && TrueRow(Old, w, f) != TrueRow(Old, w, g)
    ensures !TellsVisits(Old, w, [Visit(w, f), Visit(w, g)])
  {
    f, g := PyFrame(0, 0x1000, 2), PyFrame(0, 0x800_1000, 2);
    w := TwoCodes(f.code, g.code);
    DistantCodesCollide(f.code, g.code, 2);
    KeyForm(f.code, 2);
    assert Proper(f) && Proper(g);
    hide FrameKey;
    TwoCodesDiffer(Old, f, g);
    DisagreementShows(Old, w, f, g);
  }

  lemma {:induction false} OneBitMore()
    ensures Or(0x20, 8) == 0x28 && Or(0x20, 0x10) == 0x30 && Or(0x30, 0) == 0x30
  {
    assert Or(4, 1) == 5 && Or(2, 1) == 3;
  }

  lemma {:induction false} DoubledKeys(f: PyFrame, g: PyFrame)
    requires f == PyFrame(0, 0x20, 0x8_0000) && g == PyFrame(0, 0x30, 0)
    ensures Proper(f) && Proper(g) && CacheKey(f) != CacheKey(g) && Stored(V310, f) == Stored(V310, g)
  {
    hide Or;
    OneBitMore();
    assert CacheKey(f) == 0x28_0000 && CacheKey(g) == 0x30_0000;
  }

  /** On 3.10: an instruction that no longer fits 16 bits when it is doubled. */
  lemma {:induction false} DoubledMistold() returns (w: Remote, f: PyFrame, g: PyFrame)
    ensures CacheKey(f) != CacheKey(g) && Stored(V310, f) == Stored(V310, g)
    ensures TrueRow(V310, w, f).Some? && TrueRow(V310, w, g).Some? && TrueRow(V310, w, f) != TrueRow(V310, w, g)
    ensures !TellsVisits(V310, w, [Visit(w, f), Visit(w, g), Visit(w, f)])
  {
    f, g := PyFrame(0, 0x20, 0x8_0000), PyFrame(0, 0x30, 0);
    w := TwoCodes(f.code, g.code);
    DoubledKeys(f, g);
    hide CacheKey, Stored, Proper, TwoCodes, TrueRow, TellsVisits;
    TwoCodesDiffer(V310, f, g);
    StoredDisagreementShows(V310, w, f, g);
  }

  // ---- Exactly when every run is shown as it was resolved -----------------------------------------------------

  ghost predicate AlwaysShows(v: Version, used: set<PyFrame>, addrs: set<Key>) {
    forall o: Options, smps: seq<Sample> :: Reliable(smps, used, addrs) ==> Shows(v, o, smps)
  }

  ghost predicate AllGood(visits: seq<Visit>, used: set<PyFrame>, addrs: set<Key>) {
    forall i :: 0 <= i < |visits| ==> visits[i].frame in used && NamesIn(visits[i].remote, addrs)
  }

  lemma {:induction false} ShowsVisits(v: Version, used: set<PyFrame>, addrs: set<Key>, visits: seq<Visit>)
    requires Usual(used) && AlwaysShows(v, used, addrs) && AllGood(visits, used, addrs)
    ensures Shows(v, PLAIN, Ones(visits)) && AllProperVisits(visits)
  {
    hide ProperMemory, Shows, NamesIn, Proper;
    var smps := Ones(visits);
    forall i | 0 <= i < |smps| ensures Admits(Among(used, addrs), smps[i]) {
      OneUnwinds(v, visits[i].remote, visits[i].frame);
    }
    assert Reliable(smps, used, addrs);
  }

  /** A process with one code object, which has some location. */
  function Simple(f: PyFrame, a: Key, b: Key, line: nat): Remote {
    Remote(map[f.code := Code(a, b, line, Some([0, 0]), LineTable.Location(0, 0, 0, 0))], map[a := [], b := [65]])
  }

  lemma {:induction false} SimpleResolves(v: Version, s: State, f: PyFrame, a: Key, b: Key, line: nat)
    requires Shaped(s) && Proper(f) && a != 0 && b != 0 && CacheKey(f) !in L.Keys(s.frames.pairs)
    ensures Resolved(v, s, Simple(f, a, b, line), f).1.Some?
  {
    hide Shaped, Intern, Proper, CacheKey, L.HitValue, L.Hit, StoredKey, WithFrame, LineTable.Decode;
    var w := Simple(f, a, b, line);
    var s0 := Begin(s, One(w, f));
    FoundProper(f);
    L.MissChangesNothing(s0.frames, CacheKey(f));
    InternNamed(s0, w.strings, a);
    InternNamed(Intern(s0, w.strings, a).0, w.strings, b);
  }

  lemma {:induction false} SimpleMade(v: Version, f: PyFrame, a: Key, b: Key, line: nat, frame: CodeFrame)
    requires IsMade(v, Simple(f, a, b, line), f, frame)
    ensures frame.key == Stored(v, f) && frame.filename == a && frame.scope == b
    ensures v.V310? && line < TWO32 ==> frame.loc.lineEnd == line
  {
    hide FrameKey;
  }

  /** The first visit of all, to such a process. */
  lemma {:induction false} SimpleOnce(v: Version, f: PyFrame, a: Key, b: Key, line: nat) returns (frame: CodeFrame)
    requires Proper(f) && a != 0 && b != 0
    ensures var x := Visit(Simple(f, a, b, line), f); AllProperVisits([x])
    ensures var w := Simple(f, a, b, line); var s := After(v, [Visit(w, f)]);
      && Knows(s, v, w, f, frame) && s.frames.pairs == [L.Pair(CacheKey(f), frame)]
      && Held(s.strings, a) && Held(s.strings, b)
  {
    hide Proper, Shaped, CacheKey, Resolved, Defined, IsMade, Held, Simple;
    var w := Simple(f, a, b, line);
    AfterNone(v);
    SimpleResolves(v, Start(), f, a, b, line);
    ResolvedByMaking(v, Start(), w, f);
    AfterOneMore(v, [], w, f);
    assert [] + [Visit(w, f)] == [Visit(w, f)];
    frame := Resolved(v, Start(), w, f).1.value;
    var s1 := Resolved(v, Start(), w, f).0;
    assert s1.frames.pairs == [L.Pair(CacheKey(f), frame)] + [];
    SimpleMade(v, f, a, b, line, frame);
  }

  /** And a second, of a frame with another cache key. */
  lemma {:induction false} SimpleTwice(v: Version, f: PyFrame, g: PyFrame, a: Key)
    returns (frame: CodeFrame, other: CodeFrame)
    requires Proper(f) && Proper(g) && CacheKey(f) != CacheKey(g) && a != 0
    ensures var x, y := Visit(Simple(f, a, a, 1), f), Visit(Simple(g, a, a, 2), g); AllProperVisits([x, y])
    ensures IsMade(v, Simple(f, a, a, 1), f, frame)
    ensures var s := After(v, [Visit(Simple(f, a, a, 1), f), Visit(Simple(g, a, a, 2), g)]);
      L.Pair(CacheKey(f), frame) in s.frames.pairs && Knows(s, v, Simple(g, a, a, 2), g, other)
  {
    hide Proper, Shaped, CacheKey, Resolved, Defined, IsMade, Held, Simple;
    var x, w := Visit(Simple(f, a, a, 1), f), Simple(g, a, a, 2);
    frame := SimpleOnce(v, f, a, a, 1);
    var s := After(v, [x]);
    SimpleResolves(v, s, g, a, a, 2);
    ResolvedByMaking(v, s, w, g);
    AfterOneMore(v, [x], w, g);
    assert [x] + [Visit(w, g)] == [x, Visit(w, g)];
    other := Resolved(v, s, w, g).1.value;
    var r := After(v, [x, Visit(w, g)]);
    assert r.frames.pairs[0] == L.Pair(CacheKey(g), other) && r.frames.pairs[1] == L.Pair(CacheKey(f), frame);
  }

  lemma {:induction false} EndsDiffer(t: Tables, strings: L.Lru<Text>, frame: CodeFrame, other: CodeFrame)
    requires frame.key == other.key && frame.loc.lineEnd != other.loc.lineEnd
    requires other.key in t.frames && t.frames[other.key] == FrameEvent(other)
    ensures LookUp(t, frame.key) != Some(RowOf(strings, frame))
  {
    hide TextOr;
  }

  /** Frames with different cache keys that share a stored key: the first is shown as the other. */
  lemma {:induction false} SharedStoredKeyShows(v: Version, used: set<PyFrame>, addrs: set<Key>, f: PyFrame, g: PyFrame,
          a: Key)
    requires Usual(used) && f in used && g in used && a in addrs && a != 0
    requires Stored(v, f) == Stored(v, g) && CacheKey(f) != CacheKey(g)
    ensures !AlwaysShows(v, used, addrs)
  {
    hide AlwaysShows, Usual, Proper, Shaped, CacheKey, Resolved, Defined, IsMade, Shows, Ones, Stored, Simple, LookUp,
      RowOf, NamesIn, AllProperVisits;
    if AlwaysShows(v, used, addrs) {
      var w, w' := Simple(f, a, a, 1), Simple(g, a, a, 2);
      var x, y := Visit(w, f), Visit(w', g);
      SimpleNames(f, a, a, 1, addrs);
      SimpleNames(g, a, a, 2, addrs);
      ShowsVisits(v, used, addrs, [x, y]);
      ShowsVisits(v, used, addrs, [x, y, x]);
      UsualProper(used, f);
      UsualProper(used, g);
      var frame, other := SimpleTwice(v, f, g, a);
      assert [x, y] + [x] == [x, y, x];
      var r := After(v, [x, y]);
      ResolvedFromCache(v, r, w, f, frame);
      LastShown(v, [x, y], w, f);
      SimpleMade(v, f, a, a, 1, frame);
      SimpleMade(v, g, a, a, 2, other);
      OnlyDoubled(v, f, g);
      EndsDiffer(Defined(r.out), r.strings, frame, other);
    }
  }

  lemma {:induction false} OnlyDoubled(v: Version, f: PyFrame, g: PyFrame)
    requires Stored(v, f) == Stored(v, g) && CacheKey(f) != CacheKey(g)
    ensures v.V310?
  {
  }

  lemma {:induction false} UsualProper(used: set<PyFrame>, f: PyFrame)
    requires Usual(used) && f in used
    ensures Proper(f)
  {
  }

  lemma {:induction false} SimpleNames(f: PyFrame, a: Key, b: Key, line: nat, addrs: set<Key>)
    requires a in addrs && b in addrs
    ensures NamesIn(Simple(f, a, b, line), addrs)
  {
  }

  /** The strings that are cached are those of the process. */
  ghost function Faithful(w: Remote): State -> bool {
    (s: State) => forall p :: p in s.strings.pairs ==> p.key in w.strings && w.strings[p.key] == p.value
  }

  lemma {:induction false} FaithfulKept(v: Version, w: Remote, used: set<PyFrame>)
    ensures KeptByResolving(v, Faithful(w), Still(w, used)) && KeptByEvents(Faithful(w))
  {
    hide Held, L.Hit, L.Store, Made, L.WellFormed, CacheKey;
    var inv, allowed := Faithful(w), Still(w, used);
    assert KeptByLookups(inv) by {
      forall s, key | Shaped(s) && inv(s) && Held(s.strings, key) ensures inv(s.(strings := L.Hit(s.strings, key))) {
        HitKeeps(s.strings, key);
      }
    }
    assert KeptByStrings(inv, allowed) by {
      forall s, remote, f, key: Key | Shaped(s) && inv(s) && allowed(remote, Spot(f)) && Asked(s, remote, f, key)
        ensures key in remote.strings && inv(WithString(s, key, remote.strings[key]))
      {
        StoreKeeps(s.strings, key, remote.strings[key]);
      }
    }
  }

  lemma {:induction false} TextHeld(w: Remote, s: State, key: Key)
    requires Faithful(w)(s) && Held(s.strings, key)
    ensures key in w.strings && TextOr(s.strings, key) == w.strings[key]
  {
    assert s.strings.pairs[L.IndexOf(s.strings.pairs, key)] in s.strings.pairs;
  }

  lemma {:induction false} FaithfulAfterOne(v: Version, w: Remote, f: PyFrame)
    requires Proper(f) && f.origin == 0
    ensures AllProperVisits([Visit(w, f)]) && Faithful(w)(After(v, [Visit(w, f)]))
  {
    hide Proper, KeptByResolving, KeptByEvents, Shaped, Run, Admits;
    FaithfulKept(v, w, {f});
    OneWithin(w, {f}, f);
    assert Faithful(w)(Start());
    RunKeeps(v, Faithful(w), Still(w, {f}), PLAIN, Ones([Visit(w, f)]));
  }

  /** Different strings that share a reference: the file of a frame is shown as its scope. */
  lemma {:induction false} SharedReferenceShows(v: Version, used: set<PyFrame>, addrs: set<Key>, f: PyFrame,
          a: Key, b: Key)
    requires Usual(used) && f in used && a in addrs && b in addrs
    requires a != 0 && b != 0 && a != b && M.Ref(a) == M.Ref(b)
    ensures !AlwaysShows(v, used, addrs)
  {
    hide AlwaysShows, Proper, Shaped, CacheKey, Resolved, Defined, IsMade, Shows, Ones, Held, TextOr, Faithful,
      NamesIn, AllProperVisits;
    if AlwaysShows(v, used, addrs) {
      var w := Simple(f, a, b, 1);
      var x := Visit(w, f);
      SimpleNames(f, a, b, 1, addrs);
      ShowsVisits(v, used, addrs, []);
      ShowsVisits(v, used, addrs, [x]);
      assert [] + [x] == [x];
      var frame := SimpleOnce(v, f, a, b, 1);
      AfterNone(v);
      ResolvedByMaking(v, Start(), w, f);
      SimpleResolves(v, Start(), f, a, b, 1);
      AfterOneMore(v, [], w, f);
      LastShown(v, [], w, f);
      SimpleMade(v, f, a, b, 1, frame);
      FaithfulAfterOne(v, w, f);
      TextHeld(w, After(v, [x]), a);
      TextHeld(w, After(v, [x]), b);
    }
  }

  /**
   Whatever the process does between samples, every run is shown as it was resolved exactly when frames with
   different cache keys have different stored keys and different strings different references.
   */
  lemma {:induction false} ShowsExactly(v: Version, used: set<PyFrame>, addrs: set<Key>)
    requires Usual(used) && used != {} && exists a :: a in addrs && a != 0
    ensures AlwaysShows(v, used, addrs) <==> KeysApart(v, used) && Injective(addrs)
  {
    hide Usual, Stored, CacheKey, Reliable, Shows;
    if KeysApart(v, used) && Injective(addrs) {
      forall o: Options, smps: seq<Sample> | Reliable(smps, used, addrs) ensures Shows(v, o, smps) {
        BytesShow(v, o, smps, used, addrs);
      }
    }
    hide AlwaysShows;
    if !KeysApart(v, used) {
      var f, g :| f in used && g in used && Stored(v, f) == Stored(v, g) && CacheKey(f) != CacheKey(g);
      var a :| a in addrs && a != 0;
      SharedStoredKeyShows(v, used, addrs, f, g, a);
    }
    if !Injective(addrs) {
      var a, b :| a in addrs && b in addrs && a != 0 && b != 0 && M.Ref(a) == M.Ref(b) && a != b;
      var f :| f in used;
      SharedReferenceShows(v, used, addrs, f, a, b);
    }
  }
}
