/** The cache key of a frame: `((code & REF_SPAN) << 16) | lasti` of src/frame.h. */
module FrameKeys {
  import opened Common
  import opened MojoModel

  /** Bitwise or of naturals. */
  function Or(a: nat, b: nat): nat
    decreases a + b
  {
    if a == 0 then b else if b == 0 then a
    else 2 * Or(a / 2, b / 2) + if a % 2 == 1 || b % 2 == 1 then 1 else 0
  }

  function Pow2(n: nat): nat {
    if n == 0 then 1 else 2 * Pow2(n - 1)
  }

  lemma {:induction false} OrBound(a: nat, b: nat, n: nat)
    requires a < Pow2(n) && b < Pow2(n)
    ensures Or(a, b) < Pow2(n)
  {
    if a != 0 && b != 0 {
      OrBound(a / 2, b / 2, n - 1);
    }
  }

  lemma {:induction false} OrOnes(a: nat, n: nat)
    requires a < Pow2(n)
    ensures Or(a, Pow2(n) - 1) == Pow2(n) - 1
  {
    if a != 0 {
      assert Pow2(n) == 2 * Pow2(n - 1);
      OrOnes(a / 2, n - 1);
      hide Pow2;
      var p := Pow2(n - 1);
      var b := 2 * p - 1;
      assert b / 2 == p - 1 && b % 2 == 1;
    }
  }

  lemma {:induction false} Pow48()
    ensures Pow2(48) == 0x1_0000_0000_0000
  {
    assert Pow2(8) == 256;
    Pow2Add(8, 8);
    Pow2Add(16, 16);
    Pow2Add(32, 16);
  }

  lemma {:induction false} Pow2Add(m: nat, n: nat)
    ensures Pow2(m + n) == Pow2(m) * Pow2(n)
  {
    if n > 0 {
      Pow2Add(m, n - 1);
      assert Pow2(m + n) == 2 * Pow2(m + (n - 1));
      assert 2 * (Pow2(m) * Pow2(n - 1)) == Pow2(m) * (2 * Pow2(n - 1));
    }
  }

  /** `lasti` is an `int`: or-ing it in sign-extends it, and its high bits fall on those of the code. */
  function FrameKey(code: Key, lasti: CInt): (k: Key)
  {
    var wide := ToSize(lasti);
    OrFits(Ref(code), wide / 0x1_0000);
    Or(Ref(code), wide / 0x1_0000) * 0x1_0000 + wide % 0x1_0000
  }

  lemma {:induction false} OrFits(a: nat, b: nat)
    requires a < REF_SPAN && b < 0x1_0000_0000_0000
    ensures Or(a, b) < 0x1_0000_0000_0000
  {
    Pow48();
    OrBound(a, b, 48);
  }

  /** The key of an instruction that fits 16 bits: those above it are the 27 low bits of the code. */
  lemma {:induction false} KeyForm(code: Key, lasti: CInt)
    requires 0 <= lasti < 0x1_0000
    ensures FrameKey(code, lasti) == code % 0x800_0000 * 0x1_0000 + lasti
    ensures FrameKey(code, lasti) == Ref(code) * 0x1_0000 + lasti
  {
    assert lasti / 0x1_0000 == 0;
  }

  /** Instructions that fit 16 bits have the same key exactly at the same place of codes with the same reference. */
  lemma {:induction false} KeysAgree(a: Key, i: CInt, b: Key, j: CInt)
    requires 0 <= i < 0x1_0000 && 0 <= j < 0x1_0000
    ensures FrameKey(a, i) == FrameKey(b, j) <==> Ref(a) == Ref(b) && i == j
  {
    KeyForm(a, i);
    KeyForm(b, j);
    hide FrameKey;
    assert (Ref(a) * 0x1_0000 + i) % 0x1_0000 == i && (Ref(b) * 0x1_0000 + j) % 0x1_0000 == j;
  }

  /** A negative instruction sign-extends over all bits of the code. */
  lemma {:induction false} NegativeKey(code: Key, lasti: CInt)
    requires -0x1_0000 <= lasti < 0
    ensures FrameKey(code, lasti) == 0x1_0000_0000_0000_0000 + lasti
  {
    Pow48();
    assert Ref(code) < Pow2(48);
    OrOnes(Ref(code), 48);
    var wide := ToSize(lasti);
    assert wide == 0xFFFF_FFFF_FFFF * 0x1_0000 + (lasti + 0x1_0000);
    assert wide / 0x1_0000 == 0xFFFF_FFFF_FFFF && wide % 0x1_0000 == lasti + 0x1_0000;
  }

  /** A frame that has not started (`lasti == -1`) has the same key whatever its code. */
  lemma {:induction false} UnstartedFramesCollide(code: Key)
    ensures FrameKey(code, -1) == 0xFFFF_FFFF_FFFF_FFFF
  {
    hide FrameKey;
    NegativeKey(code, -1);
  }

  /** Instructions of 15 bits and a sign that have the same key when doubled have the same key. */
  lemma {:induction false} DoubledKeysAgree(a: Key, i: CInt, b: Key, j: CInt)
    requires -0x8000 <= i < 0x8000 && -0x8000 <= j < 0x8000
    requires FrameKey(a, 2 * i) == FrameKey(b, 2 * j)
    ensures FrameKey(a, i) == FrameKey(b, j)
  {
    hide FrameKey;
    if i >= 0 && j >= 0 {
      KeysAgree(a, 2 * i, b, 2 * j);
      KeysAgree(a, i, b, j);
    } else {
      SignedKey(a, 2 * i);
      SignedKey(b, 2 * j);
      assert i < 0 && j < 0;
      NegativeKey(a, i);
      NegativeKey(b, j);
    }
  }

  lemma {:induction false} SignedKey(code: Key, lasti: CInt)
    requires -0x1_0000 <= lasti < 0x1_0000
    ensures lasti < 0 ==> FrameKey(code, lasti) == 0x1_0000_0000_0000_0000 + lasti
    ensures lasti >= 0 ==> FrameKey(code, lasti) < REF_SPAN * 0x1_0000
  {
    hide FrameKey;
    if lasti < 0 {
      NegativeKey(code, lasti);
    } else {
      KeyForm(code, lasti);
    }
  }

  /** Nor does a key identify the code object: addresses that agree in their 27 low bits share it. */
  lemma {:induction false} DistantCodesCollide(a: Key, b: Key, lasti: CInt)
    requires Ref(a) == Ref(b)
    ensures FrameKey(a, lasti) == FrameKey(b, lasti)
  {
  }
}
