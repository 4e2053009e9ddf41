/** Folds and iterates of a step, over any register and element types. */
module Folds {

  function Iter<R>(f: R -> R, n: nat, c: R): R {
    if n == 0 then c else f(Iter(f, n - 1, c))
  }

  function Fold<R, B>(step: (R, B) -> R, c: R, s: seq<B>): R {
    if s == [] then c else step(Fold(step, c, s[..|s| - 1]), s[|s| - 1])
  }

  ghost predicate Injective<R(!new)>(f: R -> R) {
    forall a, b :: f(a) == f(b) ==> a == b
  }

  ghost predicate Additive<R(!new)>(f: R -> R, plus: (R, R) -> R) {
    forall a, b :: f(plus(a, b)) == plus(f(a), f(b))
  }

  ghost predicate StepInjective<R(!new), B(!new)>(step: (R, B) -> R) {
    forall a, b, x :: step(a, x) == step(b, x) ==> a == b
  }

  lemma {:induction false} IterInjective<R(!new)>(f: R -> R, n: nat, a: R, b: R)
    requires Injective(f) && Iter(f, n, a) == Iter(f, n, b)
    ensures a == b
  {
    if n > 0 { IterInjective(f, n - 1, a, b); }
  }

  lemma {:induction false} IterAdditive<R(!new)>(f: R -> R, plus: (R, R) -> R, n: nat, a: R, b: R)
    requires Additive(f, plus)
    ensures Iter(f, n, plus(a, b)) == plus(Iter(f, n, a), Iter(f, n, b))
  {
    if n > 0 { IterAdditive(f, plus, n - 1, a, b); }
  }

  lemma {:induction false} IterMore<R>(f: R -> R, n: nat, c: R)
    ensures Iter(f, n, f(c)) == Iter(f, n + 1, c)
  {
    if n > 0 { IterMore(f, n - 1, c); }
  }

  /** Registers that differ go on differing under equal elements. */
  lemma {:induction false} FoldInjective<R(!new), B(!new)>(step: (R, B) -> R, c: R, d: R, s: seq<B>)
    requires StepInjective(step) && Fold(step, c, s) == Fold(step, d, s)
    ensures c == d
  {
    if s != [] { FoldInjective(step, c, d, s[..|s| - 1]); }
  }

  lemma {:induction false} FoldAppend<R, B>(step: (R, B) -> R, c: R, a: seq<B>, b: seq<B>)
    ensures Fold(step, c, a + b) == Fold(step, Fold(step, c, a), b)
  {
    if b == [] {
      assert a + b == a;
    } else {
      assert (a + b)[..|a + b| - 1] == a + b[..|b| - 1];
      FoldAppend(step, c, a, b[..|b| - 1]);
    }
  }

  /** u undoes f from the right: whatever is wanted, f gets there from what u says. */
  ghost predicate Inverts<R(!new)>(u: R -> R, f: R -> R) {
    forall y :: f(u(y)) == y
  }

  lemma {:induction false} IterInverts<R(!new)>(u: R -> R, f: R -> R, n: nat, y: R)
    requires Inverts(u, f)
    ensures Iter(f, n, Iter(u, n, y)) == y
  {
    if n > 0 {
      var w := Iter(u, n - 1, y);
      IterMore(f, n - 1, u(w));
      IterInverts(u, f, n - 1, y);
    }
  }

  /** The register from which the elements lead to r, if `back` undoes a step. */
  function Unfold<R, B>(back: (R, B) -> R, r: R, s: seq<B>): R {
    if s == [] then r else Unfold(back, back(r, s[|s| - 1]), s[..|s| - 1])
  }

  /** `back` undoes a step: by any element, the step gets to y from where `back` says. */
  ghost predicate Undoes<R(!new), B(!new)>(back: (R, B) -> R, step: (R, B) -> R) {
    forall y, b :: step(back(y, b), b) == y
  }

  lemma {:induction false} FoldUnfolds<R(!new), B(!new)>(step: (R, B) -> R, back: (R, B) -> R, r: R, s: seq<B>)
    requires Undoes(back, step)
    ensures Fold(step, Unfold(back, r, s), s) == r
  {
    if s != [] { FoldUnfolds(step, back, back(r, s[|s| - 1]), s[..|s| - 1]); }
  }

  /** A text whose middle meets the register that the rest unfolds to folds to where that started. */
  lemma FoldThrough<R(!new), B(!new)>(step: (R, B) -> R, back: (R, B) -> R, c: R, a: seq<B>, s: seq<B>, z: seq<B>, end: R)
    requires Undoes(back, step) && Fold(step, Fold(step, c, a), s) == Unfold(back, end, z)
    ensures Fold(step, c, a + s + z) == end
  {
    FoldAppend(step, c, a, s);
    FoldAppend(step, c, a + s, z);
    FoldUnfolds(step, back, end, z);
  }

  /** Texts whose middles part the registers keep them apart to the end. */
  lemma FoldDiffers<R(!new), B(!new)>(step: (R, B) -> R, c: R, a: seq<B>, s: seq<B>, s': seq<B>, z: seq<B>)
    requires StepInjective(step) && Fold(step, Fold(step, c, a), s) != Fold(step, Fold(step, c, a), s')
    ensures Fold(step, c, a + s + z) != Fold(step, c, a + s' + z)
  {
    FoldAppend(step, c, a, s);
    FoldAppend(step, c, a, s');
    FoldAppend(step, c, a + s, z);
    FoldAppend(step, c, a + s', z);
    if Fold(step, c, a + s + z) == Fold(step, c, a + s' + z) { FoldInjective(step, Fold(step, c, a + s), Fold(step, c, a + s'), z); }
  }

  lemma IterEight<R>(f: R -> R, c0: R, c1: R, c2: R, c3: R, c4: R, c5: R, c6: R, c7: R, c8: R)
    requires f(c0) == c1 && f(c1) == c2 && f(c2) == c3 && f(c3) == c4
    requires f(c4) == c5 && f(c5) == c6 && f(c6) == c7 && f(c7) == c8
    ensures Iter(f, 8, c0) == c8
  {
    assert Iter(f, 1, c0) == c1 && Iter(f, 2, c0) == c2 && Iter(f, 3, c0) == c3;
    assert Iter(f, 4, c0) == c4 && Iter(f, 5, c0) == c5 && Iter(f, 6, c0) == c6 && Iter(f, 7, c0) == c7;
  }

  lemma FoldThree<R, B>(step: (R, B) -> R, c: R, s: seq<B>)
    requires |s| == 3
    ensures Fold(step, c, s) == step(step(step(c, s[0]), s[1]), s[2])
  {
    assert s[..2][..1] == s[..1] && s[..1][..0] == [];
    assert Fold(step, c, s[..1]) == step(c, s[0]);
    assert Fold(step, c, s[..2]) == step(step(c, s[0]), s[1]);
  }

  lemma FoldNine<R, B>(step: (R, B) -> R, s: seq<B>, c0: R, c3: R, c6: R, c9: R)
    requires |s| == 9
    requires step(step(step(c0, s[0]), s[1]), s[2]) == c3 && step(step(step(c3, s[3]), s[4]), s[5]) == c6
    requires step(step(step(c6, s[6]), s[7]), s[8]) == c9
    ensures Fold(step, c0, s) == c9
  {
    FoldThree(step, c0, s[..3]);
    FoldThree(step, c3, s[3..6]);
    FoldThree(step, c6, s[6..]);
    FoldAppend(step, c0, s[..3], s[3..6]);
    FoldAppend(step, c0, s[..3] + s[3..6], s[6..]);
    assert s == s[..3] + s[3..6] + s[6..];
  }

  lemma FoldFour<R, B>(step: (R, B) -> R, c: R, s: seq<B>)
    requires |s| == 4
    ensures Fold(step, c, s) == step(step(step(step(c, s[0]), s[1]), s[2]), s[3])
  {
    FoldThree(step, c, s[..3]);
  }

  /** A step that mixes the element in and then transforms the register. */
  ghost predicate Mixes<R(!new), B(!new)>(step: (R, B) -> R, t: R -> R, plus: (R, R) -> R, word: B -> R) {
    forall c, b :: step(c, b) == t(plus(c, word(b)))
  }

  /** Four elements in a row, each the transform of something earlier, are mixed in as if all at the start. */
  lemma FourAtOnce<R(!new), B(!new)>(step: (R, B) -> R, t: R -> R, plus: (R, R) -> R, word: B -> R,
                                     c: R, s: seq<B>, d1: R, d2: R, d3: R)
    requires Mixes(step, t, plus, word) && Additive(t, plus) && |s| == 4
    requires t(d1) == word(s[1]) && t(t(d2)) == word(s[2]) && t(t(t(d3))) == word(s[3])
    ensures Fold(step, c, s) == t(t(t(t(plus(plus(plus(plus(c, word(s[0])), d1), d2), d3)))))
  {
    FoldFour(step, c, s);
    var m0 := plus(c, word(s[0]));
    var m1 := plus(m0, d1);
    var m2 := plus(m1, d2);
    assert plus(t(m0), word(s[1])) == t(m1);
    assert plus(t(t(m1)), word(s[2])) == t(plus(t(m1), t(d2))) == t(t(m2));
    assert plus(t(t(t(m2))), word(s[3])) == t(plus(t(t(m2)), t(t(d3)))) == t(t(plus(t(m2), t(d3)))) == t(t(t(plus(m2, d3))));
  }
}

/**
 The CRC-32 of section 3.2.9 of IEEE 802.3, bit by bit: the checksum that
 binascii.crc32 computes.  Each bit step is linear over exclusive or and loses
 nothing, which is what makes short corruptions visible.
 */
module Crc32 {
  import opened Bytes
  import opened Folds

  /** A byte as eight bits. */
  type octet = bv8

  const POLY: bv32 := 0xEDB88320

  predicate Odd(c: bv32) {
    c & 1 == 1
  }

  function ShiftBit(c: bv32): bv32 {
    if Odd(c) then (c >> 1) ^ POLY else c >> 1
  }

  function ShiftByte(c: bv32): bv32 {
    Iter(ShiftBit, 8, c)
  }

  function Step(c: bv32, b: octet): bv32 {
    ShiftByte(c ^ (b as bv32))
  }

  function Crc(s: seq<octet>): bv32 {
    Fold(Step, 0xFFFF_FFFF, s) ^ 0xFFFF_FFFF
  }

  function Xor(a: bv32, b: bv32): bv32 {
    a ^ b
  }

  // ---------------------------------------------------------------- one bit

  lemma ShiftBothEven(a: bv32, b: bv32)
    requires !Odd(a) && !Odd(b)
    ensures ShiftBit(a ^ b) == ShiftBit(a) ^ ShiftBit(b)
  {
  }

  lemma ShiftOneOdd(a: bv32, b: bv32)
    requires !Odd(a) && Odd(b)
    ensures ShiftBit(a ^ b) == ShiftBit(a) ^ ShiftBit(b)
    ensures ShiftBit(b ^ a) == ShiftBit(b) ^ ShiftBit(a)
  {
  }

  lemma ShiftBothOdd(a: bv32, b: bv32)
    requires Odd(a) && Odd(b)
    ensures ShiftBit(a ^ b) == ShiftBit(a) ^ ShiftBit(b)
  {
  }

  lemma ShiftBitLinear(a: bv32, b: bv32)
    ensures ShiftBit(a ^ b) == ShiftBit(a) ^ ShiftBit(b)
  {
    if Odd(a) {
      if Odd(b) { ShiftBothOdd(a, b); } else { ShiftOneOdd(b, a); }
    } else {
      if Odd(b) { ShiftOneOdd(a, b); } else { ShiftBothEven(a, b); }
    }
  }

  lemma ShiftBitInjective(a: bv32, b: bv32)
    requires ShiftBit(a) == ShiftBit(b)
    ensures a == b
  {
  }

  lemma EvenShiftsHigh(x: bv32)
    requires x < 0x100_0000
    ensures ShiftBit(x << 8) == x << 7 && ShiftBit(x << 7) == x << 6
  {
  }

  lemma EvenShiftsUpper(x: bv32)
    requires x < 0x100_0000
    ensures ShiftBit(x << 6) == x << 5 && ShiftBit(x << 5) == x << 4
  {
  }

  lemma EvenShiftsLower(x: bv32)
    requires x < 0x100_0000
    ensures ShiftBit(x << 4) == x << 3 && ShiftBit(x << 3) == x << 2
  {
  }

  lemma EvenShiftsLow(x: bv32)
    requires x < 0x100_0000
    ensures ShiftBit(x << 2) == x << 1 && ShiftBit(x << 1) == x
  {
  }

  lemma BitIsGood()
    ensures Injective(ShiftBit) && Additive(ShiftBit, Xor)
  {
    forall a, b ensures ShiftBit(a) == ShiftBit(b) ==> a == b { if ShiftBit(a) == ShiftBit(b) { ShiftBitInjective(a, b); } }
    forall a, b ensures ShiftBit(Xor(a, b)) == Xor(ShiftBit(a), ShiftBit(b)) { ShiftBitLinear(a, b); }
  }

  // ---------------------------------------------------------------- one byte

  lemma ByteInjective(a: bv32, b: bv32)
    requires ShiftByte(a) == ShiftByte(b)
    ensures a == b
  {
    BitIsGood();
    IterInjective(ShiftBit, 8, a, b);
  }

  lemma ByteLinear(a: bv32, b: bv32)
    ensures ShiftByte(Xor(a, b)) == Xor(ShiftByte(a), ShiftByte(b))
  {
    BitIsGood();
    IterAdditive(ShiftBit, Xor, 8, a, b);
  }

  /** A register whose low byte is clear just moves down a byte. */
  lemma ByteMovesDown(x: bv32)
    requires x < 0x100_0000
    ensures ShiftByte(x << 8) == x
  {
    EvenShiftsHigh(x);
    EvenShiftsUpper(x);
    EvenShiftsLower(x);
    EvenShiftsLow(x);
    IterEight(ShiftBit, x << 8, x << 7, x << 6, x << 5, x << 4, x << 3, x << 2, x << 1, x);
  }

  lemma XorCancels(a: bv32, b: bv32, c: bv32)
    requires a ^ c == b ^ c
    ensures a == b
  {
  }

  lemma MixedInjective(n: nat, a: bv32, b: bv32, x: bv32)
    ensures Iter(ShiftBit, n, a ^ x) == Iter(ShiftBit, n, b ^ x) ==> a == b
  {
    if Iter(ShiftBit, n, a ^ x) == Iter(ShiftBit, n, b ^ x) {
      BitIsGood();
      IterInjective(ShiftBit, n, a ^ x, b ^ x);
      XorCancels(a, b, x);
    }
  }

  lemma StepIsInjective()
    ensures StepInjective(Step)
  {
    forall a, b, x
      ensures Step(a, x) == Step(b, x) ==> a == b
    {
      MixedInjective(8, a, b, x as bv32);
    }
  }

  // ---------------------------------------------------------------- four bytes

  function Widen(b: octet): bv32 {
    b as bv32
  }

  lemma StepMixes()
    ensures Mixes(Step, ShiftByte, Xor, Widen)
  {
  }

  lemma ShiftByteIsGood()
    ensures Injective(ShiftByte) && Additive(ShiftByte, Xor)
  {
    forall a, b ensures ShiftByte(a) == ShiftByte(b) ==> a == b { if ShiftByte(a) == ShiftByte(b) { ByteInjective(a, b); } }
    forall a, b ensures ShiftByte(Xor(a, b)) == Xor(ShiftByte(a), ShiftByte(b)) { ByteLinear(a, b); }
  }

  /** Four bytes entering at the start of a word: the register they are mixed into. */
  function Mixed(c: bv32, b0: octet, b1: octet, b2: octet, b3: octet): bv32 {
    c ^ (b0 as bv32) ^ ((b1 as bv32) << 8) ^ ((b2 as bv32) << 16) ^ ((b3 as bv32) << 24)
  }

  lemma MixedNames(c: bv32, a0: octet, a1: octet, a2: octet, a3: octet, b0: octet, b1: octet, b2: octet, b3: octet)
    requires Mixed(c, a0, a1, a2, a3) == Mixed(c, b0, b1, b2, b3)
    ensures a0 == b0 && a1 == b1 && a2 == b2 && a3 == b3
  {
  }

  function FourShifts(c: bv32): bv32 {
    ShiftByte(ShiftByte(ShiftByte(ShiftByte(c))))
  }

  lemma FourShiftsInjective(a: bv32, b: bv32)
    requires FourShifts(a) == FourShifts(b)
    ensures a == b
  {
    ShiftByteIsGood();
    assert Injective(ShiftByte);
    IterOf4(ShiftByte, a, b);
  }

  lemma IterOf4(t: bv32 -> bv32, a: bv32, b: bv32)
    requires Injective(t) && t(t(t(t(a)))) == t(t(t(t(b))))
    ensures a == b
  {
    assert t(t(t(a))) == t(t(t(b)));
    assert t(t(a)) == t(t(b));
  }

  lemma TwoBytesDown(x: bv32)
    requires x < 0x1_0000
    ensures ShiftByte(ShiftByte(x << 16)) == x
  {
    assert (x << 8) << 8 == x << 16;
    ByteMovesDown(x << 8);
    ByteMovesDown(x);
  }

  lemma ThreeBytesDown(x: bv32)
    requires x < 0x100
    ensures ShiftByte(ShiftByte(ShiftByte(x << 24))) == x
  {
    assert (x << 16) << 8 == x << 24;
    ByteMovesDown(x << 16);
    TwoBytesDown(x);
  }

  function MixedStepwise(c: bv32, s: seq<octet>): bv32
    requires |s| == 4
  {
    Xor(Xor(Xor(Xor(c, Widen(s[0])), Widen(s[1]) << 8), Widen(s[2]) << 16), Widen(s[3]) << 24)
  }

  lemma MixedEitherWay(c: bv32, s: seq<octet>)
    requires |s| == 4
    ensures MixedStepwise(c, s) == Mixed(c, s[0], s[1], s[2], s[3])
  {
  }

  lemma FourBytes(c: bv32, s: seq<octet>)
    requires |s| == 4
    ensures Fold(Step, c, s) == FourShifts(MixedStepwise(c, s))
  {
    StepMixes();
    ShiftByteIsGood();
    ByteMovesDown(Widen(s[1]));
    TwoBytesDown(Widen(s[2]));
    ThreeBytesDown(Widen(s[3]));
    FourAtOnce(Step, ShiftByte, Xor, Widen, c, s, Widen(s[1]) << 8, Widen(s[2]) << 16, Widen(s[3]) << 24);
  }

  /** Any change confined to four bytes in a row changes the register. */
  lemma FourBytesInjective(c: bv32, s: seq<octet>, s': seq<octet>)
    requires |s| == |s'| == 4 && Fold(Step, c, s) == Fold(Step, c, s')
    ensures s == s'
  {
    FourBytes(c, s);
    FourBytes(c, s');
    FourShiftsInjective(MixedStepwise(c, s), MixedStepwise(c, s'));
    MixedEitherWay(c, s);
    MixedEitherWay(c, s');
    MixedNames(c, s[0], s[1], s[2], s[3], s'[0], s'[1], s'[2], s'[3]);
  }

  // ---------------------------------------------------------------- and any register can be reached

  /** The register that a bit step takes to y. */
  function UnshiftBit(y: bv32): bv32 {
    if y & 0x8000_0000 != 0 then ((y ^ POLY) << 1) | 1 else y << 1
  }

  lemma UnshiftsHigh(y: bv32)
    requires y & 0x8000_0000 != 0
    ensures ShiftBit(((y ^ POLY) << 1) | 1) == y
  {
  }

  lemma UnshiftsLow(y: bv32)
    requires y & 0x8000_0000 == 0
    ensures ShiftBit(y << 1) == y
  {
  }

  lemma UnshiftInverts()
    ensures Inverts(UnshiftBit, ShiftBit)
  {
    forall y ensures ShiftBit(UnshiftBit(y)) == y { if y & 0x8000_0000 != 0 { UnshiftsHigh(y); } else { UnshiftsLow(y); } }
  }

  function UnshiftByte(y: bv32): bv32 {
    Iter(UnshiftBit, 8, y)
  }

  lemma UnshiftByteInverts(y: bv32)
    ensures ShiftByte(UnshiftByte(y)) == y
  {
    UnshiftInverts();
    IterInverts(UnshiftBit, ShiftBit, 8, y);
  }

  function FourUnshifts(y: bv32): bv32 {
    UnshiftByte(UnshiftByte(UnshiftByte(UnshiftByte(y))))
  }

  lemma FourUnshiftsInvert(y: bv32)
    ensures FourShifts(FourUnshifts(y)) == y
  {
    UnshiftByteInverts(y);
    UnshiftByteInverts(UnshiftByte(y));
    UnshiftByteInverts(UnshiftByte(UnshiftByte(y)));
    UnshiftByteInverts(UnshiftByte(UnshiftByte(UnshiftByte(y))));
  }

  lemma MixedReaches(c: bv32, m: bv32)
    ensures Mixed(c, ((c ^ m) & 0xFF) as octet, (((c ^ m) >> 8) & 0xFF) as octet,
                     (((c ^ m) >> 16) & 0xFF) as octet, ((c ^ m) >> 24) as octet) == m
  {
  }

  /** Four bytes lead from any register to any other. */
  lemma FourBytesSurjective(c: bv32, r: bv32) returns (s: seq<octet>)
    ensures |s| == 4 && Fold(Step, c, s) == r
  {
    var m := FourUnshifts(r);
    s := [((c ^ m) & 0xFF) as octet, (((c ^ m) >> 8) & 0xFF) as octet, (((c ^ m) >> 16) & 0xFF) as octet, ((c ^ m) >> 24) as octet];
    FourBytes(c, s);
    MixedEitherWay(c, s);
    MixedReaches(c, m);
    FourUnshiftsInvert(r);
  }

  /** The register from which one byte leads to y. */
  function StepBack(y: bv32, b: octet): bv32 {
    UnshiftByte(y) ^ (b as bv32)
  }

  lemma XorTwice(a: bv32, b: bv32)
    ensures (a ^ b) ^ b == a
  {
  }

  lemma StepBackInverts(y: bv32, b: octet)
    ensures Step(StepBack(y, b), b) == y
  {
    XorTwice(UnshiftByte(y), b as bv32);
    UnshiftByteInverts(y);
  }

  lemma StepBackUndoes()
    ensures Undoes(StepBack, Step)
  {
    forall y, b ensures Step(StepBack(y, b), b) == y { StepBackInverts(y, b); }
  }

  /** Four bytes, anywhere in a text, lead to any register. */
  lemma FoldReaches(c: bv32, a: seq<octet>, z: seq<octet>, end: bv32) returns (s: seq<octet>)
    ensures |s| == 4 && Fold(Step, c, a + s + z) == end
  {
    StepBackUndoes();
    s := FourBytesSurjective(Fold(Step, c, a), Unfold(StepBack, end, z));
    FoldThrough(Step, StepBack, c, a, s, z, end);
  }

  /** So they give it any checksum. */
  lemma CrcReaches(a: seq<octet>, z: seq<octet>, target: bv32) returns (s: seq<octet>)
    ensures |s| == 4 && Crc(a + s + z) == target
  {
    s := FoldReaches(0xFFFF_FFFF, a, z, target ^ 0xFFFF_FFFF);
    XorTwice(target, 0xFFFF_FFFF);
  }

  lemma FourBytesDiffer(c: bv32, s: seq<octet>, s': seq<octet>)
    requires |s| == |s'| == 4 && s != s'
    ensures Fold(Step, c, s) != Fold(Step, c, s')
  {
    if Fold(Step, c, s) == Fold(Step, c, s') { FourBytesInjective(c, s, s'); }
  }

  lemma XorKeepsApart(a: bv32, b: bv32, c: bv32)
    requires a != b
    ensures a ^ c != b ^ c
  {
  }

  lemma CrcDiffers(x: seq<octet>, y: seq<octet>)
    requires Fold(Step, 0xFFFF_FFFF, x) != Fold(Step, 0xFFFF_FFFF, y)
    ensures Crc(x) != Crc(y)
  {
    XorKeepsApart(Fold(Step, 0xFFFF_FFFF, x), Fold(Step, 0xFFFF_FFFF, y), 0xFFFF_FFFF);
  }

  /** A burst: two texts that differ at most within four bytes in a row, and do differ, have different checksums. */
  lemma BurstChangesCrc(a: seq<octet>, s: seq<octet>, s': seq<octet>, z: seq<octet>)
    requires |s| == |s'| == 4 && s != s'
    ensures Crc(a + s + z) != Crc(a + s' + z)
  {
    StepIsInjective();
    FourBytesDiffer(Fold(Step, 0xFFFF_FFFF, a), s, s');
    FoldDiffers(Step, 0xFFFF_FFFF, a, s, s', z);
    CrcDiffers(a + s + z, a + s' + z);
  }

  // ---------------------------------------------------------------- bytes and numbers

  function Number(c: octet): (n: nat)
    ensures n < 256
  {
    c as int
  }

  lemma NextOctet(c: octet)
    requires c != 255
    ensures Number(c + 1) == Number(c) + 1
  {
  }

  lemma SomeOctet(n: nat)
    requires n < 256
    ensures exists c: octet :: Number(c) == n
  {
    if n == 0 {
      assert Number(0) == 0;
    } else {
      SomeOctet(n - 1);
      var c: octet :| Number(c) == n - 1;
      assert Number(255) == 255;
      NextOctet(c);
    }
  }

  /** The eight bits of a byte. */
  ghost function Octet(b: byte): (c: octet)
    ensures Number(c) == b as int
  {
    SomeOctet(b as int);
    var c: octet :| Number(c) == b as int;
    c
  }

  ghost function Octets(s: seq<byte>): (t: seq<octet>)
    ensures |t| == |s|
  {
    seq(|s|, i requires 0 <= i < |s| => Octet(s[i]))
  }

  lemma NumberInjective(a: octet, b: octet)
    requires Number(a) == Number(b)
    ensures a == b
  {
  }

  /** The number of four octets, high to low. */
  function Assembled(o3: octet, o2: octet, o1: octet, o0: octet): (n: nat)
    ensures n < 0x1_0000_0000
  {
    ((Number(o3) * 256 + Number(o2)) * 256 + Number(o1)) * 256 + Number(o0)
  }

  lemma FourDigits(a3: nat, a2: nat, a1: nat, a0: nat, b3: nat, b2: nat, b1: nat, b0: nat)
    requires a3 < 256 && a2 < 256 && a1 < 256 && a0 < 256 && b3 < 256 && b2 < 256 && b1 < 256 && b0 < 256
    requires ((a3 * 256 + a2) * 256 + a1) * 256 + a0 == ((b3 * 256 + b2) * 256 + b1) * 256 + b0
    ensures a3 == b3 && a2 == b2 && a1 == b1 && a0 == b0
  {
  }

  lemma AssembledInjective(a3: octet, a2: octet, a1: octet, a0: octet, b3: octet, b2: octet, b1: octet, b0: octet)
    requires Assembled(a3, a2, a1, a0) == Assembled(b3, b2, b1, b0)
    ensures a3 == b3 && a2 == b2 && a1 == b1 && a0 == b0
  {
    FourDigits(Number(a3), Number(a2), Number(a1), Number(a0), Number(b3), Number(b2), Number(b1), Number(b0));
    NumberInjective(a3, b3);
    NumberInjective(a2, b2);
    NumberInjective(a1, b1);
    NumberInjective(a0, b0);
  }

  /** The number the register stands for. */
  function Value(c: bv32): (n: nat)
    ensures n < 0x1_0000_0000
  {
    Assembled((c >> 24) as octet, ((c >> 16) & 0xFF) as octet, ((c >> 8) & 0xFF) as octet, (c & 0xFF) as octet)
  }

  lemma FourOctets(c: bv32, d: bv32)
    requires (c >> 24) as octet == (d >> 24) as octet && ((c >> 16) & 0xFF) as octet == ((d >> 16) & 0xFF) as octet
    requires ((c >> 8) & 0xFF) as octet == ((d >> 8) & 0xFF) as octet && (c & 0xFF) as octet == (d & 0xFF) as octet
    ensures c == d
  {
  }

  lemma ValueInjective(c: bv32, d: bv32)
    requires Value(c) == Value(d)
    ensures c == d
  {
    AssembledInjective((c >> 24) as octet, ((c >> 16) & 0xFF) as octet, ((c >> 8) & 0xFF) as octet, (c & 0xFF) as octet,
                       (d >> 24) as octet, ((d >> 16) & 0xFF) as octet, ((d >> 8) & 0xFF) as octet, (d & 0xFF) as octet);
    FourOctets(c, d);
  }

  lemma OctetsInjective(s: seq<byte>, t: seq<byte>)
    requires Octets(s) == Octets(t)
    ensures s == t
  {
    forall i | 0 <= i < |s|
      ensures s[i] == t[i]
    {
      assert Octets(s)[i] == Octets(t)[i];
    }
  }

  lemma OctetsAppend(s: seq<byte>, t: seq<byte>)
    ensures Octets(s + t) == Octets(s) + Octets(t)
  {
  }

  /** The checksum of some bytes, as the number binascii.crc32 returns. */
  ghost function Ieee(s: seq<byte>): (n: nat)
    ensures n < 0x1_0000_0000
  {
    Value(Crc(Octets(s)))
  }

  lemma BurstChangesIeee(a: seq<byte>, s: seq<byte>, s': seq<byte>, z: seq<byte>)
    requires |s| == |s'| == 4 && s != s'
    ensures Ieee(a + s + z) != Ieee(a + s' + z)
  {
    OctetsAppend(a, s);
    OctetsAppend(a, s');
    OctetsAppend(a + s, z);
    OctetsAppend(a + s', z);
    if Octets(s) == Octets(s') { OctetsInjective(s, s'); }
    BurstChangesCrc(Octets(a), Octets(s), Octets(s'), Octets(z));
    if Ieee(a + s + z) == Ieee(a + s' + z) {
      ValueInjective(Crc(Octets(a + s + z)), Crc(Octets(a + s' + z)));
    }
  }

  lemma OctetOfNumber(o: octet)
    ensures Octet(Number(o) as byte) == o
  {
    NumberInjective(Octet(Number(o) as byte), o);
  }

  lemma ZeroValue()
    ensures Value(0) == 0
  {
    assert Number(0) == 0;
  }

  /** Four bytes, anywhere in a text, make its checksum zero. */
  lemma IeeeReachesZero(a: seq<byte>, z: seq<byte>) returns (s: seq<byte>)
    ensures |s| == 4 && Ieee(a + s + z) == 0
  {
    var o := CrcReaches(Octets(a), Octets(z), 0);
    s := seq(4, i requires 0 <= i < 4 => Number(o[i]) as byte);
    forall i | 0 <= i < 4 ensures Octets(s)[i] == o[i] { OctetOfNumber(o[i]); }
    assert Octets(s) == o;
    OctetsAppend(a, s);
    OctetsAppend(a + s, z);
    ZeroValue();
  }

  // ---------------------------------------------------------------- two values by which the checksum is known

  /** The nine digits whose checksum is the usual check value. */
  const DIGITS: seq<byte> := [49, 50, 51, 52, 53, 54, 55, 56, 57]
  const DIGIT_OCTETS: seq<octet> := [0x31, 0x32, 0x33, 0x34, 0x35, 0x36, 0x37, 0x38, 0x39]

  lemma FirstDigits()
    ensures Step(0xFFFF_FFFF, 0x31) == 0x7C23_1048 && Step(0x7C23_1048, 0x32) == 0xB0AC_BB32 && Step(0xB0AC_BB32, 0x33) == 0x77B7_9C2D
  {
    IterEight(ShiftBit, 0xFFFFFFCE, 0x7FFFFFE7, 0xD2477CD3, 0x849B3D49, 0xAFF51D84, 0x57FA8EC2, 0x2BFD4761, 0xF8462090, 0x7C231048);
    IterEight(ShiftBit, 0x7C23107A, 0x3E11883D, 0xF2B0473E, 0x7958239F, 0xD11492EF, 0x8532CA57, 0xAF21E60B, 0xBA287025, 0xB0ACBB32);
    IterEight(ShiftBit, 0xB0ACBB01, 0xB5EEDEA0, 0x5AF76F50, 0x2D7BB7A8, 0x16BDDBD4, 0x0B5EEDEA, 0x05AF76F5, 0xEF6F385A, 0x77B79C2D);
  }

  lemma MiddleDigits()
    ensures Step(0x77B7_9C2D, 0x34) == 0x641C_1F5C && Step(0x641C_1F5C, 0x35) == 0x340A_C5E3 && Step(0x340A_C5E3, 0x36) == 0xF68D_2C9E
  {
    IterEight(ShiftBit, 0x77B79C19, 0xD6634D2C, 0x6B31A696, 0x3598D34B, 0xF774EA85, 0x9602F662, 0x4B017B31, 0xC8383EB8, 0x641C1F5C);
    IterEight(ShiftBit, 0x641C1F69, 0xDFB68C94, 0x6FDB464A, 0x37EDA325, 0xF64E52B2, 0x7B272959, 0xD02B178C, 0x68158BC6, 0x340AC5E3);
    IterEight(ShiftBit, 0x340AC5D5, 0xF7BDE1CA, 0x7BDEF0E5, 0xD057FB52, 0x682BFDA9, 0xD9AD7DF4, 0x6CD6BEFA, 0x366B5F7D, 0xF68D2C9E);
  }

  lemma LastDigits()
    ensures Step(0xF68D_2C9E, 0x37) == 0xAFFC_9660 && Step(0xAFFC_9660, 0x38) == 0x651F_2550 && Step(0x651F_2550, 0x39) == 0x340B_C6D9
  {
    IterEight(ShiftBit, 0xF68D2CA9, 0x96FE1574, 0x4B7F0ABA, 0x25BF855D, 0xFF67418E, 0x7FB3A0C7, 0xD2615343, 0x84882A81, 0xAFFC9660);
    IterEight(ShiftBit, 0xAFFC9658, 0x57FE4B2C, 0x2BFF2596, 0x15FF92CB, 0xE7474A45, 0x9E1B2602, 0x4F0D9301, 0xCA3E4AA0, 0x651F2550);
    IterEight(ShiftBit, 0x651F2569, 0xDF371194, 0x6F9B88CA, 0x37CDC465, 0xF65E6112, 0x7B2F3089, 0xD02F1B64, 0x68178DB2, 0x340BC6D9);
  }

  lemma DigitsFolded()
    ensures Fold(Step, 0xFFFF_FFFF, DIGIT_OCTETS) == 0x340B_C6D9
  {
    FirstDigits();
    MiddleDigits();
    LastDigits();
    FoldNine(Step, DIGIT_OCTETS, 0xFFFF_FFFF, 0x77B7_9C2D, 0xF68D_2C9E, 0x340B_C6D9);
  }

  lemma DigitsChecksum()
    ensures Crc(DIGIT_OCTETS) == 0xCBF4_3926
  {
    DigitsFolded();
  }

  lemma DigitOctets()
    ensures Octets(DIGITS) == DIGIT_OCTETS
  {
    forall i | 0 <= i < 9
      ensures Octet(DIGITS[i]) == DIGIT_OCTETS[i]
    {
      assert Number(0x31) == 49 && Number(0x32) == 50 && Number(0x33) == 51 && Number(0x34) == 52 && Number(0x35) == 53;
      assert Number(0x36) == 54 && Number(0x37) == 55 && Number(0x38) == 56 && Number(0x39) == 57;
      NumberInjective(Octet(DIGITS[i]), DIGIT_OCTETS[i]);
    }
  }

  /** The check value: the checksum of the digits 1 to 9 is 0xCBF43926. */
  lemma CheckValue()
    ensures Ieee(DIGITS) == 0xCBF43926
  {
    DigitsChecksum();
    DigitOctets();
    assert Number(0xCB) == 0xCB && Number(0xF4) == 0xF4 && Number(0x39) == 0x39 && Number(0x26) == 0x26;
  }

  /** The four octets of a register, the low one first. */
  function LowFirst(c: bv32): seq<octet> {
    [(c & 0xFF) as octet, ((c >> 8) & 0xFF) as octet, ((c >> 16) & 0xFF) as octet, (c >> 24) as octet]
  }

  lemma MixedWithOwn(c: bv32)
    ensures var s := LowFirst(c ^ 0xFFFF_FFFF); Mixed(c, s[0], s[1], s[2], s[3]) == 0xFFFF_FFFF
  {
  }

  lemma OnesShifted()
    ensures FourShifts(0xFFFF_FFFF) == 0xDEBB_20E3
  {
    IterEight(ShiftBit, 0xFFFFFFFF, 0x92477CDF, 0xA49B3D4F, 0xBFF51D87, 0xB2420DE3, 0xB49985D1, 0xB7F441C8, 0x5BFA20E4, 0x2DFD1072);
    IterEight(ShiftBit, 0x2DFD1072, 0x16FE8839, 0xE6C7C73C, 0x7363E39E, 0x39B1F1CF, 0xF1607BC7, 0x9508BEC3, 0xA73CDC41, 0xBE26ED00);
    IterEight(ShiftBit, 0xBE26ED00, 0x5F137680, 0x2F89BB40, 0x17C4DDA0, 0x0BE26ED0, 0x05F13768, 0x02F89BB4, 0x017C4DDA, 0x00BE26ED);
    IterEight(ShiftBit, 0x00BE26ED, 0xEDE79056, 0x76F3C82B, 0xD6C16735, 0x86D830BA, 0x436C185D, 0xCC0E8F0E, 0x66074787, 0xDEBB20E3);
  }

  /** The residue: a text followed by its own checksum, low octet first, always leaves the same register. */
  lemma Residue(s: seq<octet>)
    ensures Fold(Step, 0xFFFF_FFFF, s + LowFirst(Crc(s))) == 0xDEBB_20E3
  {
    var c := Fold(Step, 0xFFFF_FFFF, s);
    FoldAppend(Step, 0xFFFF_FFFF, s, LowFirst(Crc(s)));
    FourBytes(c, LowFirst(Crc(s)));
    MixedEitherWay(c, LowFirst(Crc(s)));
    MixedWithOwn(c);
    OnesShifted();
  }
}
