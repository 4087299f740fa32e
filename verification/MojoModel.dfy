/** The MOJO binary format written by src/mojo.h: events, their bytes, and a reader for the bytes. */
module MojoModel {
  import opened Common

  /** A C string, without its terminator. */
  type Text = t: seq<Byte> | 0 !in t

  datatype Event =
    | Metadata(tag: Text, value: Text)
    | Stack(pid: nat, iid: nat, tid: nat)
    | Frame(key: nat, filename: nat, scope: nat, line: nat, lineEnd: nat, column: nat, columnEnd: nat)
    | FrameInvalid
    | FrameRef(key: nat)
    | FrameKernel(symbol: Text)
    | Gc
    | Idle
    | MetricTime(time: nat)
    | MetricMemory(memory: int)
    | StringDef(ref: nat, text: Text)
    | StringRef(ref: nat)

  const MOJO_VERSION: nat := 3

  /**
   References keep the 27 low bits, those of the mask `MOJO_INT32`: six in the first byte, seven in each
   of three more.
   */
  const REF_SPAN: nat := 0x800_0000

  function Ref(key: nat): (r: nat)
    ensures r < REF_SPAN
  {
    key % REF_SPAN
  }

  /** Two references are equal exactly when the addresses differ by a multiple of 2^27. */
  lemma {:induction false} RefsAgree(a: nat, b: nat)
    ensures Ref(a) == Ref(b) <==> exists k: int :: a - b == 0x800_0000 * k
    ensures Ref(a) == a <==> a < 0x800_0000
  {
    if Ref(a) == Ref(b) {
      assert a - b == 0x800_0000 * (a / 0x800_0000 - b / 0x800_0000);
    }
    if k: int :| a - b == 0x800_0000 * k {
      SameRemainder(b, a, k);
    }
  }

  lemma {:induction false} SameRemainder(a: nat, b: nat, k: int)
    requires b == a + 0x800_0000 * k
    ensures a % 0x800_0000 == b % 0x800_0000
  {
    var d := 0x800_0000;
    assert b == d * (a / d + k) + a % d;
    assert b / d == a / d + k;
  }

  // ---- Primitives ---------------------------------------------------------------------------------

  function Rest(n: nat): (bs: seq<Byte>) {
    if n == 0 then [] else [n % 128 + if n / 128 > 0 then 128 else 0] + Rest(n / 128)
  }

  function Integer(n: nat, sign: bool): (bs: seq<Byte>) {
    [n % 64 + (if sign then 64 else 0) + if n / 64 > 0 then 128 else 0] + Rest(n / 64)
  }

  function ParseRest(bs: seq<Byte>): (r: Option<(nat, seq<Byte>)>)
    ensures r.Some? ==> |r.value.1| < |bs|
  {
    if bs == [] then None
    else if bs[0] < 128 then Some((bs[0], bs[1..]))
    else
      match ParseRest(bs[1..])
      case None => None
      case Some((m, rest)) => Some((bs[0] % 128 + 128 * m, rest))
  }

  function ParseInteger(bs: seq<Byte>): (r: Option<(nat, bool, seq<Byte>)>)
    ensures r.Some? ==> |r.value.2| < |bs|
  {
    if bs == [] then None
    else if bs[0] < 128 then Some((bs[0] % 64, bs[0] / 64 == 1, bs[1..]))
    else
      match ParseRest(bs[1..])
      case None => None
      case Some((m, rest)) => Some((bs[0] % 64 + 64 * m, bs[0] / 64 % 2 == 1, rest))
  }

  function String(s: Text): seq<Byte> {
    s + [0]
  }

  function ParseString(bs: seq<Byte>): (r: Option<(Text, seq<Byte>)>)
    ensures r.Some? ==> |r.value.1| < |bs|
  {
    if bs == [] then None
    else if bs[0] == 0 then Some(([], bs[1..]))
    else
      match ParseString(bs[1..])
      case None => None
      case Some((s, rest)) => Some(([bs[0]] + s, rest))
  }

  /** `%lx` */
  function Hex(n: nat): (t: Text) {
    if n < 16 then [HexDigit(n)] else Hex(n / 16) + [HexDigit(n % 16)]
  }

  function HexDigit(d: nat): (b: Byte)
    requires d < 16
    ensures b != 0
  {
    if d < 10 then 48 + d else 87 + d
  }

  function UnHex(s: seq<Byte>): nat {
    if s == [] then 0
    else
      var c := s[|s| - 1];
      UnHex(s[..|s| - 1]) * 16 + if 48 <= c < 58 then c - 48 else if 97 <= c < 103 then c - 87 else 0
  }

  lemma {:induction false} HexRoundTrip(n: nat)
    ensures UnHex(Hex(n)) == n
  {
    if n >= 16 {
      var h, d := Hex(n / 16), HexDigit(n % 16);
      HexRoundTrip(n / 16);
      assert (h + [d])[..|h|] == h && (h + [d])[|h|] == d;
      assert UnHex(h + [d]) == UnHex(h) * 16 + n % 16;
      assert Hex(n) == h + [d];
    } else {
      var s := [HexDigit(n)];
      assert s[..|s| - 1] == [] && UnHex([]) == 0;
      assert UnHex(s) == n;
      assert Hex(n) == s;
    }
  }

  lemma {:induction false} RestRoundTrip(n: nat, tail: seq<Byte>)
    requires n > 0
    ensures ParseRest(Rest(n) + tail) == Some((n, tail))
  {
    var bs := Rest(n) + tail;
    if n / 128 > 0 {
      assert bs[1..] == Rest(n / 128) + tail;
      RestRoundTrip(n / 128, tail);
    } else {
      assert bs[1..] == tail;
    }
  }

  /** A reader gets the integer back and stops right behind it. */
  lemma {:induction false} IntegerRoundTrip(n: nat, sign: bool, tail: seq<Byte>)
    ensures ParseInteger(Integer(n, sign) + tail) == Some((n, sign, tail))
  {
    var bs := Integer(n, sign) + tail;
    if n / 64 > 0 {
      assert bs[1..] == Rest(n / 64) + tail;
      RestRoundTrip(n / 64, tail);
    } else {
      assert bs[1..] == tail;
    }
  }

  /** The encoding is injective, and no code word is a prefix of another. */
  lemma {:induction false} IntegerPrefixFree(m: nat, s: bool, xs: seq<Byte>, n: nat, t: bool, ys: seq<Byte>)
    requires Integer(m, s) + xs == Integer(n, t) + ys
    ensures m == n && s == t && xs == ys
  {
    IntegerRoundTrip(m, s, xs);
    IntegerRoundTrip(n, t, ys);
  }

  lemma {:induction false} RestLength(n: nat, k: nat)
    requires n < Pow128(k)
    ensures |Rest(n)| <= k
  {
    if n > 0 {
      RestLength(n / 128, k - 1);
    }
  }

  function Pow128(k: nat): (p: nat)
    ensures p > 0
  {
    if k == 0 then 1 else 128 * Pow128(k - 1)
  }

  lemma {:induction false} RefIsShort(key: nat)
    ensures |Integer(Ref(key), false)| <= 4
  {
    assert Pow128(3) == 128 * (128 * (128 * Pow128(0)));
    RestLength(Ref(key) / 64, 3);
  }

  lemma {:induction false} StringRoundTrip(s: Text, tail: seq<Byte>)
    ensures ParseString(String(s) + tail) == Some((s, tail))
  {
    var bs := String(s) + tail;
    if s == [] {
      assert bs[1..] == tail;
    } else {
      assert bs[1..] == String(s[1..]) + tail && bs[0] == s[0] && s[0] in s;
      StringRoundTrip(s[1..], tail);
      assert [s[0]] + s[1..] == s;
    }
  }

  function Integers(ns: seq<nat>): seq<Byte> {
    if ns == [] then [] else Integer(ns[0], false) + Integers(ns[1..])
  }

  // ---- The header -----------------------------------------------------------------------------------

  const MAGIC: seq<Byte> := [77, 79, 74]  // MOJ

  function FileHeader(): seq<Byte> {
    MAGIC + Integer(MOJO_VERSION, false)
  }

  /** The version of a file, and what follows the header. */
  function ParseHeader(bs: seq<Byte>): Option<(nat, seq<Byte>)> {
    if |bs| < 3 || bs[..3] != MAGIC then None
    else
      match ParseInteger(bs[3..])
      case None => None
      case Some((version, _, rest)) => Some((version, rest))
  }

  lemma {:induction false} HeaderRoundTrip(tail: seq<Byte>)
    ensures ParseHeader(FileHeader() + tail) == Some((MOJO_VERSION, tail))
  {
    hide Integer, ParseInteger;
    var bs := FileHeader() + tail;
    assert bs[..3] == MAGIC && bs[3..] == Integer(MOJO_VERSION, false) + tail;
    IntegerRoundTrip(MOJO_VERSION, false, tail);
  }

  // ---- Events ---------------------------------------------------------------------------------------

  function Abs(x: int): nat {
    if x < 0 then -x else x
  }

  function Encode(e: Event): (bs: seq<Byte>)
    ensures bs != []
  {
    match e
    case Metadata(tag, value) => [1] + String(tag) + String(value)
    case Stack(pid, iid, tid) => [2] + Integers([pid, iid]) + String(Hex(tid))
    case Frame(key, filename, scope, line, lineEnd, column, columnEnd) =>
      [3] + Integers([key, filename, scope, line, lineEnd, column, columnEnd])
    case FrameInvalid => [4]
    case FrameRef(key) => [5] + Integers([key])
    case FrameKernel(symbol) => [6] + String(symbol)
    case Gc => [7]
    case Idle => [8]
    case MetricTime(time) => [9] + Integers([time])
    case MetricMemory(memory) => [10] + Integer(Abs(memory), memory < 0)
    case StringDef(ref, text) => [11] + Integers([ref]) + String(text)
    case StringRef(ref) => [12] + Integers([ref])
  }

  function ParseIntegers(bs: seq<Byte>, n: nat): (r: Option<(seq<nat>, seq<Byte>)>)
    ensures r.Some? ==> |r.value.0| == n && |r.value.1| <= |bs|
    decreases n
  {
    if n == 0 then Some(([], bs))
    else
      match ParseInteger(bs) case None => None case Some((v, _, rest)) =>
      match ParseIntegers(rest, n - 1) case None => None case Some((vs, rest')) =>
        Some(([v] + vs, rest'))
  }

  function ParseEvent(bs: seq<Byte>): (r: Option<(Event, seq<Byte>)>)
    ensures r.Some? ==> |r.value.1| < |bs|
  {
    if bs == [] then None
    else
      var tail := bs[1..];
      match bs[0]
      case 1 =>
        (match ParseString(tail) case None => None case Some((tag, rest)) =>
         match ParseString(rest) case None => None case Some((value, rest')) =>
           Some((Metadata(tag, value), rest')))
      case 2 =>
        (match ParseIntegers(tail, 2) case None => None case Some((ns, rest)) =>
         match ParseString(rest) case None => None case Some((tid, rest')) =>
           Some((Stack(ns[0], ns[1], UnHex(tid)), rest')))
      case 3 =>
        (match ParseIntegers(tail, 7) case None => None case Some((ns, rest)) =>
           Some((Frame(ns[0], ns[1], ns[2], ns[3], ns[4], ns[5], ns[6]), rest)))
      case 4 => Some((FrameInvalid, tail))
      case 5 =>
        (match ParseIntegers(tail, 1) case None => None case Some((ns, rest)) => Some((FrameRef(ns[0]), rest)))
      case 6 =>
        (match ParseString(tail) case None => None case Some((symbol, rest)) => Some((FrameKernel(symbol), rest)))
      case 7 => Some((Gc, tail))
      case 8 => Some((Idle, tail))
      case 9 =>
        (match ParseIntegers(tail, 1) case None => None case Some((ns, rest)) => Some((MetricTime(ns[0]), rest)))
      case 10 =>
        (match ParseInteger(tail) case None => None case Some((n, sign, rest)) =>
           var memory: int := n;
           Some((MetricMemory(if sign then -memory else memory), rest)))
      case 11 =>
        (match ParseIntegers(tail, 1) case None => None case Some((ns, rest)) =>
         match ParseString(rest) case None => None case Some((text, rest')) =>
           Some((StringDef(ns[0], text), rest')))
      case 12 =>
        (match ParseIntegers(tail, 1) case None => None case Some((ns, rest)) => Some((StringRef(ns[0]), rest)))
      case _ => None
  }

  lemma {:induction false} IntegersRoundTrip(ns: seq<nat>, tail: seq<Byte>)
    ensures ParseIntegers(Integers(ns) + tail, |ns|) == Some((ns, tail))
  {
    if ns == [] {
      assert Integers(ns) + tail == tail;
    } else {
      assert Integers(ns) + tail == Integer(ns[0], false) + (Integers(ns[1..]) + tail);
      IntegerRoundTrip(ns[0], false, Integers(ns[1..]) + tail);
      IntegersRoundTrip(ns[1..], tail);
      assert [ns[0]] + ns[1..] == ns;
    }
  }

  lemma {:induction false} EventRoundTrip(e: Event, tail: seq<Byte>)
    ensures ParseEvent(Encode(e) + tail) == Some((e, tail))
  {
    hide ParseEvent, Encode;
    match e
    case Metadata(_, _) => MetadataRoundTrip(e, tail);
    case Stack(_, _, _) => StackRoundTrip(e, tail);
    case StringDef(_, _) => StringDefRoundTrip(e, tail);
    case Frame(_, _, _, _, _, _, _) =>
      FrameRoundTrip(e, tail);
    case FrameKernel(_) => FrameKernelRoundTrip(e, tail);
    case MetricMemory(_) => MetricMemoryRoundTrip(e, tail);
    case FrameRef(_) => NumberRoundTrip(e, tail);
    case MetricTime(_) => NumberRoundTrip(e, tail);
    case StringRef(_) => NumberRoundTrip(e, tail);
    case _ => BareRoundTrip(e, tail);
  }

  lemma {:induction false} BareRoundTrip(e: Event, tail: seq<Byte>)
    requires e.FrameInvalid? || e.Gc? || e.Idle?
    ensures ParseEvent(Encode(e) + tail) == Some((e, tail))
  {
    assert (Encode(e) + tail)[1..] == tail;
  }

  lemma {:induction false} NumberRoundTrip(e: Event, tail: seq<Byte>)
    requires e.FrameRef? || e.MetricTime? || e.StringRef?
    ensures ParseEvent(Encode(e) + tail) == Some((e, tail))
  {
    hide Integers, ParseIntegers;
    match e
    case FrameRef(n) => IntegersAt(e, 5, [n], tail);
    case MetricTime(n) => IntegersAt(e, 9, [n], tail);
    case StringRef(n) => IntegersAt(e, 12, [n], tail);
  }

  lemma {:induction false} FrameKernelRoundTrip(e: Event, tail: seq<Byte>)
    requires e.FrameKernel?
    ensures ParseEvent(Encode(e) + tail) == Some((e, tail))
  {
    hide String, ParseString;
    assert (Encode(e) + tail)[1..] == String(e.symbol) + tail;
    StringRoundTrip(e.symbol, tail);
  }

  lemma {:induction false} MetricMemoryRoundTrip(e: Event, tail: seq<Byte>)
    requires e.MetricMemory?
    ensures ParseEvent(Encode(e) + tail) == Some((e, tail))
  {
    hide Integer, ParseInteger;
    var n, sign := Abs(e.memory), e.memory < 0;
    assert (Encode(e) + tail)[1..] == Integer(n, sign) + tail;
    IntegerRoundTrip(n, sign, tail);
  }

  lemma {:induction false} MetadataRoundTrip(e: Event, tail: seq<Byte>)
    requires e.Metadata?
    ensures ParseEvent(Encode(e) + tail) == Some((e, tail))
  {
    hide String, ParseString;
    assert (Encode(e) + tail)[1..] == String(e.tag) + (String(e.value) + tail);
    StringRoundTrip(e.tag, String(e.value) + tail);
    StringRoundTrip(e.value, tail);
  }

  lemma {:induction false} StackRoundTrip(e: Event, tail: seq<Byte>)
    requires e.Stack?
    ensures ParseEvent(Encode(e) + tail) == Some((e, tail))
  {
    hide String, ParseString, Integers, ParseIntegers, Hex, UnHex;
    var ns, tid := [e.pid, e.iid], Hex(e.tid);
    assert (Encode(e) + tail)[1..] == Integers(ns) + (String(tid) + tail);
    IntegersRoundTrip(ns, String(tid) + tail);
    HexRoundTrip(e.tid);
    StringRoundTrip(tid, tail);
  }

  lemma {:induction false} FrameRoundTrip(e: Event, tail: seq<Byte>)
    requires e.Frame?
    ensures ParseEvent(Encode(e) + tail) == Some((e, tail))
  {
    hide Integers, ParseIntegers;
    var ns := [e.key, e.filename, e.scope, e.line, e.lineEnd, e.column, e.columnEnd];
    IntegersAt(e, 3, ns, tail);
  }

  lemma {:induction false} StringDefRoundTrip(e: Event, tail: seq<Byte>)
    requires e.StringDef?
    ensures ParseEvent(Encode(e) + tail) == Some((e, tail))
  {
    hide String, ParseString, Integers, ParseIntegers;
    assert (Encode(e) + tail)[1..] == Integers([e.ref]) + (String(e.text) + tail);
    IntegersRoundTrip([e.ref], String(e.text) + tail);
    StringRoundTrip(e.text, tail);
  }

  lemma {:induction false} IntegersAt(e: Event, code: Byte, ns: seq<nat>, tail: seq<Byte>)
    requires Encode(e) == [code] + Integers(ns)
    ensures var bs := Encode(e) + tail; bs[0] == code && ParseIntegers(bs[1..], |ns|) == Some((ns, tail))
  {
    hide Encode, Integers, ParseIntegers;
    assert (Encode(e) + tail)[1..] == Integers(ns) + tail;
    IntegersRoundTrip(ns, tail);
  }

  // ---- Streams --------------------------------------------------------------------------------------

  function EncodeAll(es: seq<Event>): seq<Byte> {
    if es == [] then [] else EncodeAll(es[..|es| - 1]) + Encode(es[|es| - 1])
  }

  function ParseAll(bs: seq<Byte>): Option<seq<Event>>
    decreases |bs|
  {
    if bs == [] then Some([])
    else
      match ParseEvent(bs)
      case None => None
      case Some((e, rest)) =>
        match ParseAll(rest)
        case None => None
        case Some(es) => Some([e] + es)
  }

  lemma {:induction false} EncodeOneMore(es: seq<Event>, e: Event)
    ensures EncodeAll(es + [e]) == EncodeAll(es) + Encode(e)
  {
    hide Encode;
    assert (es + [e])[..|es|] == es;
  }

  lemma {:induction false} EncodeOne(e: Event)
    ensures EncodeAll([e]) == Encode(e)
  {
    hide Encode;
    EncodeOneMore([], e);
    assert [] + [e] == [e] && EncodeAll([]) == [];
    assert [] + Encode(e) == Encode(e);
  }

  lemma {:induction false} EncodeNone()
    ensures EncodeAll([]) == []
  {
  }

  lemma {:induction false} Grouped(xs: seq<Byte>, ys: seq<Byte>, zs: seq<Byte>)
    ensures (xs + ys) + zs == xs + (ys + zs) && xs + [] == xs
  {
  }

  lemma {:induction false} EncodeAllFirst(es: seq<Event>)
    requires es != []
    ensures EncodeAll(es) == Encode(es[0]) + EncodeAll(es[1..])
  {
    hide Encode, EncodeAll;
    var n := |es| - 1;
    if n == 0 {
      assert es == [es[0]] && es[1..] == [];
      EncodeOne(es[0]);
      EncodeNone();
      Grouped(Encode(es[0]), [], []);
    } else {
      var front, last := es[..n], es[n];
      var rest := front[1..];
      EncodeAllFirst(front);
      EncodeOneMore(front, last);
      EncodeOneMore(rest, last);
      assert es == front + [last] && es[1..] == rest + [last];
      Grouped(Encode(es[0]), EncodeAll(rest), Encode(last));
    }
  }

  /** Any stream of events reads back as the same events. */
  lemma {:induction false} StreamRoundTrip(es: seq<Event>)
    ensures ParseAll(EncodeAll(es)) == Some(es)
  {
    if es != [] {
      hide ParseEvent, Encode;
      EncodeAllFirst(es);
      EventRoundTrip(es[0], EncodeAll(es[1..]));
      StreamRoundTrip(es[1..]);
      assert [es[0]] + es[1..] == es;
    }
  }

  lemma {:induction false} EncodeTwo(a: Event, b: Event)
    ensures EncodeAll([a, b]) == Encode(a) + Encode(b)
  {
    hide Encode, EncodeAll;
    EncodeOne(a);
    EncodeOneMore([a], b);
    assert [a] + [b] == [a, b];
  }

  lemma {:induction false} EncodeFive(a: Event, b: Event, c: Event, d: Event, e: Event)
    ensures EncodeAll([a, b, c, d, e]) == Encode(a) + Encode(b) + Encode(c) + Encode(d) + Encode(e)
  {
    hide Encode, EncodeAll;
    EncodeTwo(a, b);
    EncodeOneMore([a, b], c);
    EncodeOneMore([a, b, c], d);
    EncodeOneMore([a, b, c, d], e);
    assert [a, b] + [c] == [a, b, c] && [a, b, c] + [d] == [a, b, c, d] && [a, b, c, d] + [e] == [a, b, c, d, e];
  }

  // ---- The layout, in numbers -------------------------------------------------------------------------

  /** The first byte of an event is its number. */
  lemma {:induction false} EventNumbers(e: Event)
    ensures match Encode(e)[0]
      case 1 => e.Metadata?
      case 2 => e.Stack?
      case 3 => e.Frame?
      case 4 => e.FrameInvalid?
      case 5 => e.FrameRef?
      case 6 => e.FrameKernel?
      case 7 => e.Gc?
      case 8 => e.Idle?
      case 9 => e.MetricTime?
      case 10 => e.MetricMemory?
      case 11 => e.StringDef?
      case 12 => e.StringRef?
      case _ => false
  {
    hide Integers, Integer, String;
  }

  lemma {:induction false} RestDigit(n: nat, i: nat)
    requires i < |Rest(n)|
    ensures var bs := Rest(n); bs[i] % 128 == n / Pow128(i) % 128 && (bs[i] >= 128 <==> i < |bs| - 1)
  {
    if i > 0 {
      assert Rest(n)[i] == Rest(n / 128)[i - 1];
      RestDigit(n / 128, i - 1);
      hide Rest;
      DivideTwice(n, Pow128(i - 1));
    } else {
      assert |Rest(n / 128)| > 0 <==> n / 128 > 0;
    }
  }

  lemma {:induction false} RestIsShort(n: nat)
    ensures n < Pow128(|Rest(n)|) && (Rest(n) != [] ==> Pow128(|Rest(n)| - 1) <= n)
  {
    if n > 0 {
      RestIsShort(n / 128);
      PowerSteps(n, |Rest(n / 128)|);
    }
  }

  lemma {:induction false} PowerSteps(n: nat, k: nat)
    ensures n / 128 < Pow128(k) ==> n < Pow128(k + 1)
    ensures k > 0 && Pow128(k - 1) <= n / 128 ==> Pow128(k) <= n
  {
  }

  lemma {:induction false} DivideTwice(n: nat, d: nat)
    requires d > 0
    ensures n / 128 / d == n / (128 * d)
  {
    var q, r := n / 128 / d, n / 128 % d;
    assert n / 128 == d * q + r;
    assert n == 128 * d * q + (128 * r + n % 128);
    QuotientIs(n, 128 * d, q, 128 * r + n % 128);
  }

  lemma {:induction false} QuotientIs(n: nat, d: nat, q: nat, r: nat)
    requires n == d * q + r && r < d
    ensures n / d == q
  {
    OneQuotient(d, n / d, n % d, q, r);
  }

  lemma {:induction false} OneQuotient(d: nat, p: nat, m: nat, q: nat, r: nat)
    requires d * p + m == d * q + r && m < d && r < d
    ensures p == q
  {
    if p < q {
      Multiples(d, p + 1, q);
    } else if q < p {
      Multiples(d, q + 1, p);
    }
  }

  lemma {:induction false} Multiples(d: nat, p: nat, q: nat)
    requires p <= q
    ensures d * p <= d * q
  {
  }

  /**
   Six bits and the sign in the first byte, seven in each of the others, from the lowest; the high bit is set
   in all but the last, and there are no more than it takes.
   */
  lemma {:induction false} IntegerLayout(n: nat, sign: bool)
    ensures var bs := Integer(n, sign);
      && bs[0] % 64 == n % 64 && (bs[0] / 64 % 2 == 1 <==> sign)
      && (forall i :: 1 <= i < |bs| ==> bs[i] % 128 == n / 64 / Pow128(i - 1) % 128)
      && (forall i :: 0 <= i < |bs| ==> (bs[i] >= 128 <==> i < |bs| - 1))
      && n / 64 < Pow128(|bs| - 1) && (|bs| > 1 ==> Pow128(|bs| - 2) <= n / 64)
  {
    var bs, rest := Integer(n, sign), Rest(n / 64);
    RestIsShort(n / 64);
    assert |rest| > 0 <==> n / 64 > 0;
    forall i | 1 <= i < |bs|
      ensures bs[i] % 128 == n / 64 / Pow128(i - 1) % 128 && (bs[i] >= 128 <==> i < |bs| - 1)
    {
      RestDigit(n / 64, i - 1);
      assert bs[i] == rest[i - 1];
    }
  }

  lemma {:induction false} KnownEvents()
    ensures Encode(Stack(10, 1, 31)) == [2, 10, 1, 49, 102, 0]
    ensures Encode(MetricTime(100)) == [9, 164, 1]
    ensures Encode(MetricMemory(-5)) == [10, 69]
    ensures Encode(Gc) == [7] && Encode(Idle) == [8]
  {
    assert [10, 1][1..] == [1] && [1][1..] == [] && [100][1..] == [];
    assert Integer(10, false) == [10] && Integer(1, false) == [1] && Integer(100, false) == [164, 1];
    assert Hex(31) == [49, 102] && Integers([]) == [];
    assert Integers([1]) == [1] && Integers([10, 1]) == [10, 1] && Integers([100]) == [164, 1];
  }

  lemma {:induction false} IntegersSmall(ns: seq<nat>)
    requires forall i :: 0 <= i < |ns| ==> ns[i] < 64
    ensures Integers(ns) == ns
  {
    if ns != [] {
      assert Integer(ns[0], false) == [ns[0]];
      IntegersSmall(ns[1..]);
      assert [ns[0]] + ns[1..] == ns;
    }
  }

  /** The fields of the other events, in their order, and the header. */
  lemma {:induction false} KnownFrame()
    ensures Encode(Frame(1, 2, 3, 4, 5, 6, 7)) == [3, 1, 2, 3, 4, 5, 6, 7]
  {
    hide Integer, Integers;
    IntegersSmall([1, 2, 3, 4, 5, 6, 7]);
  }

  lemma {:induction false} KnownReferences()
    ensures Encode(StringDef(2, [97])) == [11, 2, 97, 0] && Encode(StringRef(2)) == [12, 2]
    ensures Encode(FrameRef(1)) == [5, 1]
  {
    hide Integer, Integers;
    IntegersSmall([2]);
    IntegersSmall([1]);
  }

  lemma {:induction false} KnownStrings()
    ensures Encode(FrameKernel([97])) == [6, 97, 0] && Encode(Metadata([97], [98])) == [1, 97, 0, 98, 0]
    ensures Encode(FrameInvalid) == [4] && FileHeader() == [77, 79, 74, 3]
  {
    assert Integer(3, false) == [3];
    hide Integer;
  }
}
