/** The checksum of src/linux/futils.h, and the one of section 8 of RFC 1952. */
module Crc {
  const POLYNOMIAL: bv32 := 0xEDB8_8320
  const ONES: bv32 := 0xFFFF_FFFF

  // ---- Words --------------------------------------------------------------------------------------

  function Xor(x: bv32, y: bv32): bv32 {
    x ^ y
  }

  function Widen(b: bv8): bv32 {
    b as bv32
  }

  function LowByte(x: bv32): bv8 {
    (x & 0xFF) as bv8
  }

  function Shr8(x: bv32): bv32 {
    x >> 8
  }

  function Shl8(x: bv32): bv32 {
    x << 8
  }

  lemma {:induction false} XorAssoc(x: bv32, y: bv32, z: bv32)
    ensures Xor(x, Xor(y, z)) == Xor(Xor(x, y), z)
  {
  }

  lemma {:induction false} XorCancel(x: bv32, y: bv32, z: bv32)
    ensures Xor(x, z) == Xor(y, z) ==> x == y
    ensures Xor(z, x) == Xor(z, y) ==> x == y
  {
  }

  function Not(x: bv32): bv32 {
    !x
  }

  lemma {:induction false} NotIsXor(x: bv32)
    ensures Not(x) == Xor(x, ONES) && Xor(0, x) == x
  {
  }

  /** A word is its low byte and the rest of it, shifted back up. */
  lemma {:induction false} SplitWord(x: bv32)
    ensures x == Xor(Widen(LowByte(x)), Shl8(Shr8(x)))
  {
  }

  lemma {:induction false} ShiftBytes(x: bv32, b: bv8)
    ensures Shr8(Xor(x, Widen(b))) == Shr8(x)
  {
  }

  // ---- The source's loop ---------------------------------------------------------------------------

  /** `(crc >> 1) ^ (0xEDB88320 & (-(int32_t)(crc & 1)))` */
  function BitStep(crc: bv32): bv32 {
    (crc >> 1) ^ (POLYNOMIAL & (0 - (crc & 1)))
  }

  function BitSteps(crc: bv32, n: nat): bv32 {
    if n == 0 then crc else BitStep(BitSteps(crc, n - 1))
  }

  function ByteStep(crc: bv32, b: bv8): bv32 {
    BitSteps(Xor(crc, Widen(b)), 8)
  }

  function Register(crc: bv32, data: seq<bv8>): bv32 {
    if data == [] then crc else ByteStep(Register(crc, data[..|data| - 1]), data[|data| - 1])
  }

  method Crc32(data: seq<bv8>) returns (r: bv32)
    ensures r == Rfc1952(data)
  {
    hide Xor, Not, ByteStep, Rfc1952;
    var crc: bv32 := ONES;
    var i := 0;
    while i < |data|
      invariant 0 <= i <= |data| && crc == Register(ONES, data[..i])
    {
      assert data[..i + 1][..i] == data[..i];
      crc := CrcByte(crc, data[i]);
      i := i + 1;
    }
    assert data[..i] == data;
    RegisterIsRfc(data);
    r := Not(crc);
  }

  /** The inner loop: one byte, bit by bit. */
  method CrcByte(before: bv32, b: bv8) returns (crc: bv32)
    ensures crc == ByteStep(before, b)
  {
    crc := Xor(before, Widen(b));
    hide Xor, Widen;
    ghost var start := crc;
    var j := 0;
    while j < 8
      invariant 0 <= j <= 8 && crc == BitSteps(start, j)
    {
      BitStepIs(crc);
      hide BitStep;
      crc := (crc >> 1) ^ (POLYNOMIAL & (0 - (crc & 1)));
      j := j + 1;
    }
  }

  lemma {:induction false} BitStepIs(crc: bv32)
    ensures BitStep(crc) == (crc >> 1) ^ (POLYNOMIAL & (0 - (crc & 1)))
  {
  }

  // ---- RFC 1952, section 8 --------------------------------------------------------------------------

  predicate Odd(c: bv32) {
    c & 1 == 1
  }

  function Half(c: bv32): bv32 {
    c >> 1
  }

  function TableStep(c: bv32): bv32 {
    if Odd(c) then Xor(POLYNOMIAL, Half(c)) else Half(c)
  }

  /** One entry of the table, computed bit by bit with a branch. */
  function TableEntry(c: bv32, k: nat): bv32 {
    if k == 0 then c else TableStep(TableEntry(c, k - 1))
  }

  function Table(n: bv8): bv32 {
    TableEntry(Widen(n), 8)
  }

  function UpdateCrc(c: bv32, data: seq<bv8>): bv32 {
    if data == [] then c
    else
      var d := UpdateCrc(c, data[..|data| - 1]);
      Xor(Table(LowByte(Xor(d, Widen(data[|data| - 1])))), Shr8(d))
  }

  function Rfc1952(data: seq<bv8>): bv32 {
    Xor(UpdateCrc(Xor(0, ONES), data), ONES)
  }

  lemma {:induction false} BitStepIsTableStep(c: bv32)
    ensures BitStep(c) == TableStep(c)
  {
    if Odd(c) {
      assert 0 - (c & 1) == ONES;
      assert POLYNOMIAL & ONES == POLYNOMIAL;
    } else {
      assert c & 1 == 0;
    }
  }

  lemma {:induction false} HalfLinear(c: bv32, d: bv32)
    ensures Half(Xor(c, d)) == Xor(Half(c), Half(d))
    ensures Odd(Xor(c, d)) <==> (Odd(c) != Odd(d))
  {
  }

  lemma {:induction false} XorSame(p: bv32, x: bv32, y: bv32)
    ensures Xor(Xor(p, x), Xor(p, y)) == Xor(x, y)
    ensures Xor(p, Xor(x, y)) == Xor(Xor(p, x), y) == Xor(x, Xor(p, y))
  {
  }

  lemma {:induction false} TableStepLinear(c: bv32, d: bv32)
    ensures TableStep(Xor(c, d)) == Xor(TableStep(c), TableStep(d))
  {
    hide Xor, Half, Odd;
    HalfLinear(c, d);
    XorSame(POLYNOMIAL, Half(c), Half(d));
  }

  lemma {:induction false} BitStepLinear(c: bv32, d: bv32)
    ensures BitStep(Xor(c, d)) == Xor(BitStep(c), BitStep(d))
  {
    hide BitStep, TableStep, Xor;
    BitStepIsTableStep(c);
    BitStepIsTableStep(d);
    BitStepIsTableStep(Xor(c, d));
    TableStepLinear(c, d);
  }

  lemma {:induction false} BitStepsLinear(c: bv32, d: bv32, n: nat)
    ensures BitSteps(Xor(c, d), n) == Xor(BitSteps(c, n), BitSteps(d, n))
  {
    hide Xor, BitStep;
    if n > 0 {
      BitStepsLinear(c, d, n - 1);
      BitStepLinear(BitSteps(c, n - 1), BitSteps(d, n - 1));
    }
  }

  lemma {:induction false} TableIsBitSteps(c: bv32, n: nat)
    ensures TableEntry(c, n) == BitSteps(c, n)
  {
    hide BitStep, TableStep;
    if n > 0 {
      TableIsBitSteps(c, n - 1);
      BitStepIsTableStep(BitSteps(c, n - 1));
    }
  }

  /** Eight steps over a word whose low byte is zero only shift it down. */
  lemma {:induction false} HighBytesShift(x: bv32)
    ensures BitSteps(Shl8(x), 8) == Shr8(Shl8(x))
  {
    hide Shl8, Shr8, Half, BitStep;
    var a := Shl8(x);
    var b := Half(a);
    var c := Half(b);
    var d := Half(c);
    var e := Half(d);
    var f := Half(e);
    var g := Half(f);
    var h := Half(g);
    EvenSteps(x, a, b, c, d, e, f, g, h);
    EightSteps(a, b, c, d, e, f, g, h, Half(h));
  }

  lemma {:induction false} EvenSteps(x: bv32, a: bv32, b: bv32, c: bv32, d: bv32, e: bv32, f: bv32, g: bv32, h: bv32)
    requires a == Shl8(x) && b == Half(a) && c == Half(b) && d == Half(c)
    requires e == Half(d) && f == Half(e) && g == Half(f) && h == Half(g)
    ensures BitStep(a) == b && BitStep(b) == c && BitStep(c) == d && BitStep(d) == e
    ensures BitStep(e) == f && BitStep(f) == g && BitStep(g) == h && BitStep(h) == Half(h) == Shr8(a)
  {
    EvenBits(x);
    hide Shl8, Shr8, Half, BitStep, Odd, Xor;
    EvenStep(a);
    EvenStep(b);
    EvenStep(c);
    EvenStep(d);
    EvenStep(e);
    EvenStep(f);
    EvenStep(g);
    EvenStep(h);
  }

  lemma {:induction false} EvenStep(c: bv32)
    requires !Odd(c)
    ensures BitStep(c) == Half(c)
  {
    hide BitStep, Half, Odd, Xor;
    BitStepIsTableStep(c);
  }

  lemma {:induction false} EvenBits(x: bv32)
    ensures var a := Shl8(x); var b := Half(a); var c := Half(b); var d := Half(c);
      var e := Half(d); var f := Half(e); var g := Half(f); var h := Half(g);
      && !Odd(a) && !Odd(b) && !Odd(c) && !Odd(d) && !Odd(e) && !Odd(f) && !Odd(g) && !Odd(h)
      && Half(h) == Shr8(a)
  {
  }

  lemma {:induction false} EightSteps(a: bv32, b: bv32, c: bv32, d: bv32, e: bv32, f: bv32, g: bv32, h: bv32, i: bv32)
    requires BitStep(a) == b && BitStep(b) == c && BitStep(c) == d && BitStep(d) == e
    requires BitStep(e) == f && BitStep(f) == g && BitStep(g) == h && BitStep(h) == i
    ensures BitSteps(a, 8) == i
  {
    hide BitStep;
    assert BitSteps(a, 0) == a;
    assert BitSteps(a, 1) == b;
    assert BitSteps(a, 2) == c;
    assert BitSteps(a, 3) == d;
    assert BitSteps(a, 4) == e;
    assert BitSteps(a, 5) == f;
    assert BitSteps(a, 6) == g;
    assert BitSteps(a, 7) == h;
  }

  /** A byte step is one table lookup. */
  lemma {:induction false} ByteStepIsLookup(d: bv32, b: bv8)
    ensures ByteStep(d, b) == Xor(Table(LowByte(Xor(d, Widen(b)))), Shr8(d))
  {
    hide Xor, Widen, LowByte, Shr8, Shl8, BitSteps, TableEntry;
    var x := Xor(d, Widen(b));
    SplitWord(x);
    BitStepsLinear(Widen(LowByte(x)), Shl8(Shr8(x)), 8);
    HighBytesShift(Shr8(x));
    ShiftBack(x);
    TableIsBitSteps(Widen(LowByte(x)), 8);
    ShiftBytes(d, b);
  }

  lemma {:induction false} ShiftBack(x: bv32)
    ensures Shr8(Shl8(Shr8(x))) == Shr8(x)
  {
  }

  lemma {:induction false} RegisterIsUpdate(crc: bv32, data: seq<bv8>)
    ensures Register(crc, data) == UpdateCrc(crc, data)
  {
    hide Xor, Widen, LowByte, Shr8, Table, ByteStep;
    if data != [] {
      RegisterIsUpdate(crc, data[..|data| - 1]);
      ByteStepIsLookup(Register(crc, data[..|data| - 1]), data[|data| - 1]);
    }
  }

  lemma {:induction false} RegisterIsRfc(data: seq<bv8>)
    ensures Not(Register(ONES, data)) == Xor(Register(ONES, data), ONES) == Rfc1952(data)
  {
    hide Xor, Not, Register, UpdateCrc;
    RegisterIsUpdate(ONES, data);
    NotIsXor(Register(ONES, data));
    NotIsXor(ONES);
  }

  // ---- Error detection --------------------------------------------------------------------------------

  lemma {:induction false} BitStepInjective(c: bv32, d: bv32)
    requires BitStep(c) == BitStep(d)
    ensures c == d
  {
  }

  lemma {:induction false} BitStepsInjective(c: bv32, d: bv32, n: nat)
    requires BitSteps(c, n) == BitSteps(d, n)
    ensures c == d
  {
    hide BitStep;
    if n > 0 {
      BitStepInjective(BitSteps(c, n - 1), BitSteps(d, n - 1));
      BitStepsInjective(c, d, n - 1);
    }
  }

  lemma {:induction false} ByteStepInjective(c: bv32, d: bv32, b: bv8)
    requires ByteStep(c, b) == ByteStep(d, b)
    ensures c == d
  {
    hide Xor, Widen, BitSteps;
    BitStepsInjective(Xor(c, Widen(b)), Xor(d, Widen(b)), 8);
    XorCancel(c, d, Widen(b));
  }

  /** Equal data cannot bring different registers together. */
  lemma {:induction false} RegisterInjective(c: bv32, d: bv32, data: seq<bv8>)
    requires Register(c, data) == Register(d, data)
    ensures c == d
  {
    hide ByteStep;
    if data != [] {
      var n := |data| - 1;
      ByteStepInjective(Register(c, data[..n]), Register(d, data[..n]), data[n]);
      RegisterInjective(c, d, data[..n]);
    }
  }

  lemma {:induction false} RegisterAppend(c: bv32, xs: seq<bv8>, ys: seq<bv8>)
    ensures Register(c, xs + ys) == Register(Register(c, xs), ys)
  {
    hide ByteStep;
    if ys == [] {
      assert xs + ys == xs;
    } else {
      var n := |ys| - 1;
      assert (xs + ys)[..|xs| + n] == xs + ys[..n];
      RegisterAppend(c, xs, ys[..n]);
    }
  }

  /** Bytes as one word, the first in the low bits. */
  function Word(a: bv8, b: bv8, c: bv8, d: bv8): bv32 {
    Xor(Widen(a), Shl8(Xor(Widen(b), Shl8(Xor(Widen(c), Shl8(Widen(d)))))))
  }

  lemma {:induction false} WordBytes(a: bv8, b: bv8, c: bv8, d: bv8)
    ensures var w := Word(a, b, c, d);
      && a == LowByte(w) && b == LowByte(Shr8(w)) && c == LowByte(Shr8(Shr8(w))) && d == LowByte(Shr8(Shr8(Shr8(w))))
  {
  }

  /** A word below 2^24. */
  predicate Fits24(w: bv32) {
    w >> 24 == 0
  }

  lemma {:induction false} Fits(a: bv8, b: bv8, c: bv8, d: bv8)
    ensures Fits24(Widen(d)) && Fits24(Xor(Widen(c), Shl8(Widen(d))))
    ensures Fits24(Xor(Widen(b), Shl8(Xor(Widen(c), Shl8(Widen(d))))))
  {
  }

  lemma {:induction false} ShiftUpDown(w: bv32)
    requires Fits24(w)
    ensures Shr8(Shl8(w)) == w
  {
  }

  /** The bytes still ahead can be added to the register before the step, shifted up. */
  lemma {:induction false} ByteAhead(x: bv32, b: bv8, w: bv32)
    requires Fits24(w)
    ensures Xor(ByteStep(x, b), w) == BitSteps(Xor(x, Xor(Widen(b), Shl8(w))), 8)
  {
    hide Xor, Widen, Shl8, Shr8, BitSteps, Fits24;
    XorAssoc(x, Widen(b), Shl8(w));
    BitStepsLinear(Xor(x, Widen(b)), Shl8(w), 8);
    HighBytesShift(w);
    ShiftUpDown(w);
  }

  lemma {:induction false} BitStepsAdd(c: bv32, m: nat, n: nat)
    ensures BitSteps(BitSteps(c, m), n) == BitSteps(c, m + n)
  {
    hide BitStep;
    if n > 0 {
      BitStepsAdd(c, m, n - 1);
    }
  }

  /** Four byte steps are 32 bit steps over the register with the whole word added. */
  lemma {:induction false} FourBytes(x: bv32, a: bv8, b: bv8, c: bv8, d: bv8)
    ensures ByteStep(ByteStep(ByteStep(ByteStep(x, a), b), c), d) == BitSteps(Xor(x, Word(a, b, c, d)), 32)
  {
    var w3 := Widen(d);
    var w2 := Xor(Widen(c), Shl8(w3));
    var w1 := Xor(Widen(b), Shl8(w2));
    var x1 := ByteStep(x, a);
    var x2 := ByteStep(x1, b);
    var x3 := ByteStep(x2, c);
    assert ByteStep(x3, d) == BitSteps(Xor(x3, w3), 8) && Xor(Widen(a), Shl8(w1)) == Word(a, b, c, d);
    hide Xor, Widen, Shl8, Shr8, BitSteps, ByteStep, Fits24, Word;
    Fits(a, b, c, d);
    ByteAhead(x2, c, w3);
    ByteAhead(x1, b, w2);
    ByteAhead(x, a, w1);
    var y := Xor(x, Word(a, b, c, d));
    BitStepsAdd(y, 8, 8);
    BitStepsAdd(y, 16, 8);
    BitStepsAdd(y, 24, 8);
  }

  lemma {:induction false} RegisterOfFour(x: bv32, xs: seq<bv8>)
    requires |xs| == 4
    ensures Register(x, xs) == BitSteps(Xor(x, Word(xs[0], xs[1], xs[2], xs[3])), 32)
  {
    hide ByteStep, BitSteps, Xor, Word;
    assert xs[..3][..2] == xs[..2] && xs[..2][..1] == xs[..1] && xs[..1][..0] == [];
    assert Register(x, []) == x;
    assert Register(x, xs[..1]) == ByteStep(x, xs[0]);
    assert Register(x, xs[..2]) == ByteStep(Register(x, xs[..1]), xs[1]);
    assert Register(x, xs[..3]) == ByteStep(Register(x, xs[..2]), xs[2]);
    assert Register(x, xs) == ByteStep(Register(x, xs[..3]), xs[3]);
    FourBytes(x, xs[0], xs[1], xs[2], xs[3]);
  }

  lemma {:induction false} FourBytesInjective(x: bv32, xs: seq<bv8>, ys: seq<bv8>)
    requires |xs| == |ys| == 4 && Register(x, xs) == Register(x, ys)
    ensures xs == ys
  {
    hide Register, BitSteps, Xor, Word, LowByte, Shr8;
    var v, w := Word(xs[0], xs[1], xs[2], xs[3]), Word(ys[0], ys[1], ys[2], ys[3]);
    RegisterOfFour(x, xs);
    RegisterOfFour(x, ys);
    BitStepsInjective(Xor(x, v), Xor(x, w), 32);
    XorCancel(v, w, x);
    WordBytes(xs[0], xs[1], xs[2], xs[3]);
    WordBytes(ys[0], ys[1], ys[2], ys[3]);
  }

  /** `xs` and `ys` have equal length and differ only within the four bytes from `at` on. */
  ghost predicate DifferWithinFour(xs: seq<bv8>, ys: seq<bv8>, at: nat) {
    |xs| == |ys| && forall i :: 0 <= i < |xs| && (i < at || at + 4 <= i) ==> xs[i] == ys[i]
  }

  /** Such buffers, unless they are equal, have different checksums. */
  lemma {:induction false} BurstDetected(xs: seq<bv8>, ys: seq<bv8>, at: nat)
    requires DifferWithinFour(xs, ys, at) && xs != ys
    ensures Rfc1952(xs) != Rfc1952(ys)
  {
    hide Register, Rfc1952, Xor;
    // Zero bytes behind both buffers make room for the window.
    var pad: seq<bv8> := [0, 0, 0, 0];
    var us, vs := xs + pad, ys + pad;
    if Rfc1952(xs) == Rfc1952(ys) {
      RegisterIsRfc(xs);
      RegisterIsRfc(ys);
      XorCancel(Register(ONES, xs), Register(ONES, ys), ONES);
      RegisterAppend(ONES, xs, pad);
      RegisterAppend(ONES, ys, pad);
      assert us[..|xs|] == xs && vs[..|xs|] == ys;
      WindowDetected(us, vs, if at < |xs| then at else |xs|);
      assert false;
    }
  }

  lemma {:induction false} WindowDetected(us: seq<bv8>, vs: seq<bv8>, k: nat)
    requires DifferWithinFour(us, vs, k) && k + 4 <= |us| && Register(ONES, us) == Register(ONES, vs)
    ensures us == vs
  {
    hide Register;
    var c := Register(ONES, us[..k]);
    var a, b, rest := us[k..k + 4], vs[k..k + 4], us[k + 4..];
    assert us[..k] == vs[..k] && rest == vs[k + 4..];
    assert us == us[..k] + a + rest && vs == us[..k] + b + rest;
    RegisterAppend(ONES, us[..k] + a, rest);
    RegisterAppend(ONES, us[..k] + b, rest);
    RegisterAppend(ONES, us[..k], a);
    RegisterAppend(ONES, us[..k], b);
    RegisterInjective(Register(c, a), Register(c, b), rest);
    FourBytesInjective(c, a, b);
  }

  // ---- A known checksum -------------------------------------------------------------------------------

  /** That of the letter `a`. */
  lemma {:induction false} KnownChecksum()
    ensures Rfc1952([0x61]) == 0xE8B7_BE43
  {
    assert [0x61 as bv8][..0] == [];
    KnownEntry();
    hide Table;
    assert UpdateCrc(ONES, []) == ONES;
    assert LowByte(Xor(ONES, Widen(0x61))) == 0x9E;
    assert Shr8(ONES) == 0x00FF_FFFF;
    assert Xor(0, ONES) == ONES;
  }

  lemma {:induction false} KnownEntry()
    ensures Table(0x9E) == 0x17B7_BE43
  {
    assert TableEntry(Widen(0x9E), 0) == 0x9E;
    assert TableEntry(Widen(0x9E), 1) == 0x4F;
  }
}
