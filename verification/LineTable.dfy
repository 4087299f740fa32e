/** The location table of Python 3.11 and later, as the loop of src/frame.h reads it. */
module LineTable {
  import opened Common

  datatype Location = Location(line: nat, lineEnd: nat, column: nat, columnEnd: nat)

  // ---- Reading ------------------------------------------------------------------------------------

  /**
   A varint whose first byte is at `j`: its value and the index of its last byte, or None when the
   buffer ends first.
   */
  function Varint(buf: seq<Byte>, j: nat): (r: Option<(nat, nat)>)
    ensures r.Some? ==> j <= r.value.1 < |buf|
    decreases |buf| - j
  {
    if j >= |buf| then None
    else if buf[j] / 64 % 2 == 0 then Some((buf[j] % 64, j))
    else
      match Varint(buf, j + 1)
      case None => None
      case Some((v, k)) => Some((buf[j] % 64 + 64 * v, k))
  }

  /** The same as the `int` that the source computes: bits from the 32nd on are lost. */
  function IntAt(buf: seq<Byte>, j: nat): (r: Option<(int, nat)>)
    ensures r.Some? ==> j <= r.value.1 < |buf|
  {
    match Varint(buf, j)
    case None => None
    case Some((v, k)) => Some((Int32(v), k))
  }

  /** Shifting an `int` to the right rounds down. */
  function Unzigzag(v: int): int {
    if v % 2 == 1 then -(v / 2) else v / 2
  }

  function ReadByte(buf: seq<Byte>, j: nat): Option<Byte> {
    if j < |buf| then Some(buf[j]) else None
  }

  /** One entry, whose first byte is at `i`: the new location and the index of the entry's last byte. */
  function Step(buf: seq<Byte>, i: nat, loc: Location): (r: Option<(Location, nat)>)
    requires i < |buf|
    ensures r.Some? ==> i <= r.value.1
  {
    var code := buf[i] / 8 % 16;
    if code == 15 then Some((loc, i))
    else if code == 14 then
      match IntAt(buf, i + 1) case None => None case Some((d, i1)) =>
      match IntAt(buf, i1 + 1) case None => None case Some((e, i2)) =>
      match IntAt(buf, i2 + 1) case None => None case Some((c, i3)) =>
      match IntAt(buf, i3 + 1) case None => None case Some((ce, i4)) =>
        var line := U32(loc.line + Unzigzag(d));
        Some((Location(line, U32(line + e), U32(c), U32(ce)), i4))
    else if code == 13 then
      match IntAt(buf, i + 1) case None => None case Some((d, i1)) =>
        var line := U32(loc.line + Unzigzag(d));
        Some((Location(line, line, 0, 0), i1))
    else if code >= 10 then
      match ReadByte(buf, i + 1) case None => None case Some(c) =>
      match ReadByte(buf, i + 2) case None => None case Some(ce) =>
        var line := U32(loc.line + code - 10);
        Some((Location(line, line, 1 + c, 1 + ce), i + 2))
    else
      match ReadByte(buf, i + 1) case None => None case Some(next) =>
        var column := 1 + code * 8 + next / 16 % 8;
        Some((Location(loc.line, loc.line, column, column + next % 16), i + 1))
  }

  function Units(b: Byte): nat {
    b % 8 + 1
  }

  function Decode(buf: seq<Byte>, len: nat, i: nat, bc: nat, loc: Location, lasti: int): Option<Location>
    requires len <= |buf|
    decreases len - i
  {
    if i >= len then Some(loc)
    else
      match Step(buf, i, loc)
      case None => None
      case Some((loc', k)) =>
        var bc' := bc + Units(buf[i]);
        if bc' > ToSize(lasti) then Some(loc') else Decode(buf, len, k + 1, bc', loc', lasti)
  }

  /** The reader of the source: the 32 bits of `val` are filled six at a time, from the lowest. */
  method ReadVarint(buf: seq<Byte>, start: nat) returns (ok: bool, val: int, i: nat)
    ensures ok <==> IntAt(buf, start + 1).Some?
    ensures ok ==> IntAt(buf, start + 1) == Some((val, i))
  {
    hide U32, Int32, Varint, Add, Shifted;
    i := start + 1;
    if i >= |buf| {
      NoVarint(buf, i);
      return false, 0, i;
    }
    var bits: nat, weight: nat := buf[i] % 64, 1;  // weight is 1 << shift
    ghost var low: nat, exact: nat := 0, 1;
    FirstGroup(buf[i] % 64);
    ShiftedNone(Varint(buf, i));
    while buf[i] / 64 % 2 == 1
      invariant start < i < |buf| && weight == U32(exact) && bits == U32(Add(low, exact, buf[i] % 64))
      invariant Varint(buf, start + 1) == Shifted(low, exact, Varint(buf, i))
      decreases |buf| - i
    {
      ShiftedOnce(buf, i, low, exact);
      U32Times(exact, 64);
      low, exact, weight, i := Add(low, exact, buf[i] % 64), exact * 64, U32(weight * 64), i + 1;
      if i >= |buf| {
        NoVarint(buf, i);
        ShiftedNone(None);
        return false, 0, i;
      }
      NextBits(low, exact, buf[i] % 64);
      bits := U32(Add(bits, weight, buf[i] % 64));
    }
    ShiftedLast(buf, i, low, exact);
    Int32OfU32(Add(low, exact, buf[i] % 64));
    ok, val := true, Int32(bits);
  }

  /** `val |= group << shift`: the bits of the group are all above those of `val`. */
  function Add(val: nat, weight: nat, group: nat): nat {
    val + weight * group
  }

  lemma {:induction false} FirstGroup(group: nat)
    requires group < 64
    ensures U32(Add(0, 1, group)) == group && U32(1) == 1
  {
  }

  lemma {:induction false} NextBits(low: nat, exact: nat, group: nat)
    ensures U32(Add(U32(low), U32(exact), group)) == U32(Add(low, exact, group))
  {
    hide U32;
    U32Times(exact, group);
    U32Sum(U32(low), U32(exact) * group, low, exact * group);
  }

  lemma {:induction false} Int32OfU32(x: nat)
    ensures Int32(U32(x)) == Int32(x)
  {
  }

  lemma {:induction false} NoVarint(buf: seq<Byte>, i: nat)
    requires i >= |buf|
    ensures Varint(buf, i) == None
  {
  }

  lemma {:induction false} U32Times(x: nat, y: nat)
    ensures U32(U32(x) * y) == U32(x * y)
    decreases y
  {
    hide U32;
    if y > 0 {
      U32Times(x, y - 1);
      U32Sum(U32(x), U32(x) * (y - 1), x, x * (y - 1));
      assert U32(x) * y == U32(x) + U32(x) * (y - 1) && x * y == x + x * (y - 1);
    }
  }

  lemma {:induction false} U32Sum(x: nat, y: nat, u: nat, v: nat)
    requires U32(x) == U32(u) && U32(y) == U32(v)
    ensures U32(x + y) == U32(u + v)
  {
  }

  ghost function Shifted(low: nat, weight: nat, r: Option<(nat, nat)>): Option<(int, nat)> {
    match r
    case None => None
    case Some((v, k)) => Some((low + weight * v, k))
  }

  lemma {:induction false} ShiftedNone(r: Option<(nat, nat)>)
    ensures Shifted(0, 1, r) == r
    ensures forall low, weight :: Shifted(low, weight, None) == None
  {
  }

  lemma {:induction false} ShiftedOnce(buf: seq<Byte>, i: nat, low: nat, weight: nat)
    requires i < |buf| && buf[i] / 64 % 2 == 1
    ensures Shifted(low, weight, Varint(buf, i)) ==
            Shifted(Add(low, weight, buf[i] % 64), weight * 64, Varint(buf, i + 1))
  {
    if Varint(buf, i + 1).Some? {
      var v, b := Varint(buf, i + 1).value.0, buf[i] % 64;
      assert weight * (b + 64 * v) == weight * b + weight * 64 * v;
    }
  }

  lemma {:induction false} ShiftedLast(buf: seq<Byte>, i: nat, low: nat, weight: nat)
    requires i < |buf| && buf[i] / 64 % 2 == 0
    ensures Shifted(low, weight, Varint(buf, i)) == Some((Add(low, weight, buf[i] % 64), i))
  {
  }

  /** The loop of the source over the table; `ok` is false when a read left the buffer. */
  method ReadLocation(buf: seq<Byte>, len: nat, firstLine: nat, lasti: int) returns (ok: bool, loc: Location)
    requires len <= |buf| && firstLine < TWO32
    ensures ok <==> Decode(buf, len, 0, 0, Location(firstLine, firstLine, 0, 0), lasti).Some?
    ensures ok ==> Decode(buf, len, 0, 0, Location(firstLine, firstLine, 0, 0), lasti) == Some(loc)
  {
    var i: nat, bc: nat := 0, 0;
    loc := Location(firstLine, firstLine, 0, 0);
    while i < len
      invariant Decode(buf, len, i, bc, loc, lasti) ==
                Decode(buf, len, 0, 0, Location(firstLine, firstLine, 0, 0), lasti)
      decreases len - i
    {
      bc := bc + Units(buf[i]);
      ok, loc, i := ReadEntry(buf, i, loc);
      if !ok {
        return;
      }
      if bc > ToSize(lasti) {
        return;
      }
      i := i + 1;
    }
    ok := true;
  }

  /** The switch of the loop. */
  method ReadEntry(buf: seq<Byte>, start: nat, before: Location) returns (ok: bool, loc: Location, i: nat)
    requires start < |buf|
    ensures ok <==> Step(buf, start, before).Some?
    ensures ok ==> Step(buf, start, before) == Some((loc, i))
  {
    hide U32, Unzigzag, IntAt;
    i, loc, ok := start, before, true;
    var code := buf[i] / 8 % 16;
    if code == 15 {
    } else if code == 14 {
      var d, e, c, ce;
      ok, d, i := ReadVarint(buf, i);
      if !ok { return; }
      loc := loc.(line := U32(loc.line + Unzigzag(d)));
      ok, e, i := ReadVarint(buf, i);
      if !ok { return; }
      loc := loc.(lineEnd := U32(loc.line + e));
      ok, c, i := ReadVarint(buf, i);
      if !ok { return; }
      loc := loc.(column := U32(c));
      ok, ce, i := ReadVarint(buf, i);
      loc := loc.(columnEnd := U32(ce));
    } else if code == 13 {
      var d;
      ok, d, i := ReadVarint(buf, i);
      loc := loc.(line := U32(loc.line + Unzigzag(d)));
      loc := loc.(lineEnd := loc.line, column := 0, columnEnd := 0);
    } else if code >= 10 {
      if i + 2 >= |buf| {
        ok := false;
        return;
      }
      loc := loc.(line := U32(loc.line + code - 10));
      var c: int, ce: int := buf[i + 1], buf[i + 2];
      loc := Location(loc.line, loc.line, 1 + c, 1 + ce);
      i := i + 2;
    } else {
      if i + 1 >= |buf| {
        ok := false;
        return;
      }
      i := i + 1;
      var next := buf[i];
      var column := 1 + code * 8 + next / 16 % 8;
      loc := loc.(lineEnd := loc.line, column := column, columnEnd := column + next % 16);
    }
  }

  // ---- Writing ------------------------------------------------------------------------------------

  function EncodeVarint(v: nat): (bs: seq<Byte>)
    ensures bs != []
  {
    if v < 64 then [v] else [64 + v % 64] + EncodeVarint(v / 64)
  }

  function Zigzag(d: int): nat {
    if d < 0 then -d * 2 + 1 else d * 2
  }

  /**
   A location entry for `units` code units, with numbers that fit the source's `int`.  Columns count from
   1, with 0 for none, in the long form; they are stored from 0 in the other two forms that have them.
   */
  datatype Entry =
    | NoLocation(units: nat)
    | Long(units: nat, lineDelta: int, endDelta: nat, column: nat, columnEnd: nat)
    | NoColumns(units: nat, lineDelta: int)
    | OneLine(units: nat, step: nat, column: nat, columnEnd: nat)
    | Short(units: nat, column: nat, width: nat)

  predicate WellFormed(e: Entry) {
    && 1 <= e.units <= 8
    && match e
       case Long(_, d, ed, c, ce) => Zigzag(d) < TWO31 && ed < TWO31 && c < TWO31 && ce < TWO31
       case NoColumns(_, d) => Zigzag(d) < TWO31
       case OneLine(_, step, c, ce) => step <= 2 && c < 256 && ce < 256
       case Short(_, c, w) => c < 80 && w < 16
       case _ => true
  }

  function First(code: nat, units: nat): Byte
    requires code < 16 && 1 <= units <= 8
  {
    128 + code * 8 + (units - 1)
  }

  function Encode(e: Entry): (bs: seq<Byte>)
    requires WellFormed(e)
    ensures bs != []
  {
    match e
    case NoLocation(u) => [First(15, u)]
    case Long(u, d, ed, c, ce) =>
      [First(14, u)] + EncodeVarint(Zigzag(d)) + EncodeVarint(ed) + EncodeVarint(c) + EncodeVarint(ce)
    case NoColumns(u, d) => [First(13, u)] + EncodeVarint(Zigzag(d))
    case OneLine(u, step, c, ce) => [First(10 + step, u), c, ce]
    case Short(u, c, w) => [First(c / 8, u), c % 8 * 16 + w]
  }

  function EncodeAll(es: seq<Entry>): seq<Byte>
    requires forall e :: e in es ==> WellFormed(e)
  {
    if es == [] then [] else Encode(es[0]) + EncodeAll(es[1..])
  }

  /** What an entry says about its code units, given what the one before it said. */
  function Apply(e: Entry, loc: Location): Location {
    match e
    case NoLocation(_) => loc
    case Long(_, d, ed, c, ce) => Location(U32(loc.line + d), U32(U32(loc.line + d) + ed), c, ce)
    case NoColumns(_, d) => Location(U32(loc.line + d), U32(loc.line + d), 0, 0)
    case OneLine(_, step, c, ce) => Location(U32(loc.line + step), U32(loc.line + step), c + 1, ce + 1)
    case Short(_, c, w) => Location(loc.line, loc.line, c + 1, c + 1 + w)
  }

  function ApplyAll(es: seq<Entry>, loc: Location): Location {
    if es == [] then loc else ApplyAll(es[1..], Apply(es[0], loc))
  }

  function TotalUnits(es: seq<Entry>): nat {
    if es == [] then 0 else es[0].units + TotalUnits(es[1..])
  }

  /** How many entries it takes to get past the code unit `lasti`. */
  function Reach(es: seq<Entry>, lasti: int): (n: nat)
    ensures n <= |es|
  {
    if es == [] then 0 else if es[0].units > lasti then 1 else 1 + Reach(es[1..], lasti - es[0].units)
  }

  lemma {:induction false} ReachCovers(es: seq<Entry>, lasti: int)
    requires lasti >= 0
    ensures var n := Reach(es, lasti);
      && (forall m :: 0 <= m < n ==> TotalUnits(es[..m]) <= lasti)
      && (n < |es| ==> lasti < TotalUnits(es[..n]))
  {
    if es != [] {
      var n := Reach(es, lasti);
      if es[0].units <= lasti {
        ReachCovers(es[1..], lasti - es[0].units);
      }
      forall m | 0 <= m <= n
        ensures TotalUnits(es[..m]) == if m == 0 then 0 else es[0].units + TotalUnits(es[1..][..m - 1])
      {
        assert m > 0 ==> es[..m][1..] == es[1..][..m - 1];
      }
    }
  }

  // ---- Round trip ----------------------------------------------------------------------------------

  /** `bs` stands in the buffer at `i`. */
  predicate At(buf: seq<Byte>, i: nat, bs: seq<Byte>) {
    i + |bs| <= |buf| && buf[i..i + |bs|] == bs
  }

  lemma {:induction false} AtSplit(buf: seq<Byte>, i: nat, xs: seq<Byte>, ys: seq<Byte>)
    requires At(buf, i, xs + ys)
    ensures At(buf, i, xs) && At(buf, i + |xs|, ys)
  {
    var zs := xs + ys;
    assert forall k :: 0 <= k < |zs| ==> buf[i + k] == zs[k];
    assert forall k :: 0 <= k < |xs| ==> buf[i + k] == xs[k];
    forall k | 0 <= k < |ys| ensures buf[i + |xs| + k] == ys[k] {
      assert buf[i + (|xs| + k)] == zs[|xs| + k];
    }
  }

  lemma {:induction false} GroupsRoundTrip(buf: seq<Byte>, i: nat, v: nat)
    requires At(buf, i, EncodeVarint(v))
    ensures Varint(buf, i) == Some((v, i + |EncodeVarint(v)| - 1))
    decreases v
  {
    if v < 64 {
      assert buf[i] == EncodeVarint(v)[0];
    } else {
      AtSplit(buf, i, [64 + v % 64], EncodeVarint(v / 64));
      assert buf[i..i + 1][0] == 64 + v % 64;
      GroupsRoundTrip(buf, i + 1, v / 64);
    }
  }

  /** A number is read back exactly when it is below 2^31. */
  lemma {:induction false} VarintRoundTrip(buf: seq<Byte>, i: nat, v: nat)
    requires At(buf, i, EncodeVarint(v))
    ensures IntAt(buf, i).Some? && IntAt(buf, i).value.1 == i + |EncodeVarint(v)| - 1
    ensures IntAt(buf, i).value.0 == v <==> v < TWO31
  {
    hide Varint, U32, EncodeVarint, At;
    GroupsRoundTrip(buf, i, v);
  }

  lemma {:induction false} ZigzagRoundTrip(d: int)
    ensures Unzigzag(Zigzag(d)) == d
  {
  }

  lemma {:induction false} FirstFields(code: nat, u: nat)
    requires code < 16 && 1 <= u <= 8
    ensures First(code, u) / 8 % 16 == code && Units(First(code, u)) == u
  {
  }

  lemma {:induction false} FirstAt(buf: seq<Byte>, i: nat, b: Byte)
    requires At(buf, i, [b])
    ensures i < |buf| && buf[i] == b
  {
    assert buf[i..i + 1][0] == b;
  }

  lemma {:induction false} StepLong(buf: seq<Byte>, i: nat, e: Entry, loc: Location)
    requires e.Long? && WellFormed(e) && At(buf, i, Encode(e))
    ensures Step(buf, i, loc) == Some((Apply(e, loc), i + |Encode(e)| - 1)) && Units(buf[i]) == e.units
  {
    hide At, EncodeVarint, IntAt, Zigzag, Unzigzag, First, U32, Units;
    var f := [First(14, e.units)];
    var d, ed := EncodeVarint(Zigzag(e.lineDelta)), EncodeVarint(e.endDelta);
    var c, ce := EncodeVarint(e.column), EncodeVarint(e.columnEnd);
    AtSplit(buf, i, f + d + ed + c, ce);
    AtSplit(buf, i, f + d + ed, c);
    AtSplit(buf, i, f + d, ed);
    AtSplit(buf, i, f, d);
    FirstAt(buf, i, f[0]);
    FirstFields(14, e.units);
    VarintRoundTrip(buf, i + 1, Zigzag(e.lineDelta));
    VarintRoundTrip(buf, i + 1 + |d|, e.endDelta);
    VarintRoundTrip(buf, i + 1 + |d| + |ed|, e.column);
    VarintRoundTrip(buf, i + 1 + |d| + |ed| + |c|, e.columnEnd);
    ZigzagRoundTrip(e.lineDelta);
  }

  lemma {:induction false} StepNoColumns(buf: seq<Byte>, i: nat, e: Entry, loc: Location)
    requires e.NoColumns? && WellFormed(e) && At(buf, i, Encode(e))
    ensures Step(buf, i, loc) == Some((Apply(e, loc), i + |Encode(e)| - 1)) && Units(buf[i]) == e.units
  {
    hide At, EncodeVarint, IntAt, Zigzag, Unzigzag, First, U32, Units;
    var f, d := [First(13, e.units)], EncodeVarint(Zigzag(e.lineDelta));
    AtSplit(buf, i, f, d);
    FirstAt(buf, i, f[0]);
    FirstFields(13, e.units);
    VarintRoundTrip(buf, i + 1, Zigzag(e.lineDelta));
    ZigzagRoundTrip(e.lineDelta);
  }

  lemma {:induction false} StepShort(buf: seq<Byte>, i: nat, e: Entry, loc: Location)
    requires !e.Long? && !e.NoColumns? && WellFormed(e) && At(buf, i, Encode(e)) && loc.line < TWO32
    ensures Step(buf, i, loc) == Some((Apply(e, loc), i + |Encode(e)| - 1)) && Units(buf[i]) == e.units
  {
    hide Varint, First, U32, Units;
    var bs := Encode(e);
    assert forall k :: 0 <= k < |bs| ==> bs[k] == buf[i..i + |bs|][k];
    assert buf[i] == bs[0] && (|bs| > 1 ==> buf[i + 1] == bs[1]) && (|bs| > 2 ==> buf[i + 2] == bs[2]);
    match e
    case NoLocation(u) => FirstFields(15, u);
    case OneLine(u, step, c, ce) => FirstFields(10 + step, u);
    case Short(u, c, w) =>
      FirstFields(c / 8, u);
      assert (c % 8 * 16 + w) / 16 == c % 8;
  }

  /** One step of the loop reads one entry, and stays aligned with the entries. */
  lemma {:induction false} StepRoundTrip(buf: seq<Byte>, i: nat, e: Entry, loc: Location)
    requires WellFormed(e) && At(buf, i, Encode(e)) && loc.line < TWO32
    ensures i < |buf| && Step(buf, i, loc) == Some((Apply(e, loc), i + |Encode(e)| - 1)) && Units(buf[i]) == e.units
    ensures Apply(e, loc).line < TWO32
  {
    match e
    case Long(_, _, _, _, _) => StepLong(buf, i, e, loc);
    case NoColumns(_, _) => StepNoColumns(buf, i, e, loc);
    case _ => StepShort(buf, i, e, loc);
  }

  lemma {:induction false} DecodeEntries(buf: seq<Byte>, len: nat, i: nat, es: seq<Entry>, bc: nat, loc: Location,
          lasti: nat)
    requires forall e :: e in es ==> WellFormed(e)
    requires At(buf, i, EncodeAll(es)) && len == i + |EncodeAll(es)| && bc <= lasti && loc.line < TWO32
    ensures Decode(buf, len, i, bc, loc, lasti) == Some(ApplyAll(es[..Reach(es, lasti - bc)], loc))
    decreases |es|
  {
    hide At, Step, Encode, Apply, Units, WellFormed;
    if es != [] {
      var e, rest := es[0], es[1..];
      var loc', bc', k := Apply(e, loc), bc + e.units, i + |Encode(e)|;
      AtSplit(buf, i, Encode(e), EncodeAll(rest));
      StepRoundTrip(buf, i, e, loc);
      var n := Reach(es, lasti - bc);
      assert es[..n][1..] == rest[..n - 1] && es[..n][0] == e;
      if bc' <= lasti {
        DecodeEntries(buf, len, k, rest, bc', loc', lasti);
      } else {
        assert rest[..0] == [];
      }
    }
  }

  /**
   On the bytes of any well-formed list of entries, whatever follows them in the buffer, the loop
   returns what the entries say up to the one that covers `lasti`.
   */
  lemma {:induction false} LocationRoundTrip(es: seq<Entry>, tail: seq<Byte>, firstLine: nat, lasti: nat)
    requires forall e :: e in es ==> WellFormed(e)
    requires firstLine < TWO32
    ensures var bs, loc := EncodeAll(es), Location(firstLine, firstLine, 0, 0);
      Decode(bs + tail, |bs|, 0, 0, loc, lasti) == Some(ApplyAll(es[..Reach(es, lasti)], loc))
  {
    var bs := EncodeAll(es);
    assert (bs + tail)[0..|bs|] == bs;
    DecodeEntries(bs + tail, |bs|, 0, es, 0, Location(firstLine, firstLine, 0, 0), lasti);
  }

  lemma {:induction false} DecodeAllEntries(buf: seq<Byte>, len: nat, i: nat, es: seq<Entry>, bc: nat, loc: Location,
          lasti: int)
    requires forall e :: e in es ==> WellFormed(e)
    requires At(buf, i, EncodeAll(es)) && len == i + |EncodeAll(es)| && loc.line < TWO32
    requires bc + TotalUnits(es) <= ToSize(lasti)
    ensures Decode(buf, len, i, bc, loc, lasti) == Some(ApplyAll(es, loc))
    decreases |es|
  {
    hide At, Step, Encode, Apply, Units, WellFormed, ToSize;
    if es != [] {
      var e, rest := es[0], es[1..];
      AtSplit(buf, i, Encode(e), EncodeAll(rest));
      StepRoundTrip(buf, i, e, loc);
      DecodeAllEntries(buf, len, i + |Encode(e)|, rest, bc + e.units, Apply(e, loc), lasti);
    }
  }

  /**
   A frame that has not started has a negative `lasti`, which the comparison takes for an unsigned number
   that no table gets past: the location is that of the last entry.
   */
  lemma {:induction false} UnstartedLocation(es: seq<Entry>, tail: seq<Byte>, firstLine: nat, lasti: CInt)
    requires forall e :: e in es ==> WellFormed(e)
    requires firstLine < TWO32 && lasti < 0 && TotalUnits(es) < 0x8000_0000_0000_0000
    ensures var bs, loc := EncodeAll(es), Location(firstLine, firstLine, 0, 0);
      Decode(bs + tail, |bs|, 0, 0, loc, lasti) == Some(ApplyAll(es, loc))
  {
    var bs := EncodeAll(es);
    assert (bs + tail)[0..|bs|] == bs;
    DecodeAllEntries(bs + tail, |bs|, 0, es, 0, Location(firstLine, firstLine, 0, 0), lasti);
  }

  // ---- The layout, in numbers -------------------------------------------------------------------------

  /** The first byte of an entry has its kind and its units. */
  lemma {:induction false} EntryKinds(e: Entry)
    requires WellFormed(e)
    ensures var first := Encode(e)[0];
      && first >= 128 && first % 8 == e.units - 1
      && match e
         case NoLocation(_) => first / 8 % 16 == 15
         case Long(_, _, _, _, _) => first / 8 % 16 == 14
         case NoColumns(_, _) => first / 8 % 16 == 13
         case OneLine(_, step, _, _) => first / 8 % 16 == 10 + step
         case Short(_, column, _) => first / 8 % 16 == column / 8
  {
    hide EncodeVarint;
  }

  /** One entry of each kind, read after line 10. */
  lemma {:induction false} KnownEntries()
    ensures var loc := Location(10, 10, 3, 4);
      && Step([0xF8], 0, loc) == Some((loc, 0))
      && Step([0xE8, 4], 0, loc) == Some((Location(12, 12, 0, 0), 1))
      && Step([0xD8, 4, 9], 0, loc) == Some((Location(11, 11, 5, 10), 2))
      && Step([0x90, 0x35], 0, loc) == Some((Location(10, 10, 20, 25), 1))
  {
    assert Varint([0xE8, 4], 1) == Some((4, 1));
    hide Varint;
  }

  lemma {:induction false} KnownLongEntry()
    ensures Step([0xF1, 3, 2, 5, 0x49, 1], 0, Location(10, 10, 3, 4)) == Some((Location(9, 11, 5, 73), 5))
  {
    var bs := [0xF1, 3, 2, 5, 0x49, 1];
    assert Varint(bs, 1) == Some((3, 1)) && Varint(bs, 2) == Some((2, 2)) && Varint(bs, 3) == Some((5, 3));
    assert Varint(bs, 5) == Some((1, 5)) && Varint(bs, 4) == Some((73, 5));
    hide Varint;
  }
}
