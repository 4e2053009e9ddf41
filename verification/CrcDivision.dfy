/**
 Division of polynomials over the two-element field by the generator of section
 3.2.9 of IEEE 802.3, and registers that carry it out a bit at a time.
 */
module Division {
  import opened Folds

  /** Coefficients, the highest power first. */
  type Poly = seq<bool>

  function Zeros(n: nat): Poly {
    seq(n, _ => false)
  }

  function Ones(n: nat): Poly {
    seq(n, _ => true)
  }

  function Plus(a: Poly, b: Poly): (r: Poly)
    requires |a| == |b|
    ensures |r| == |a|
  {
    seq(|a|, i requires 0 <= i < |a| => a[i] != b[i])
  }

  /** The generator's powers below 32. */
  const POWERS: set<int> := {26, 23, 22, 16, 12, 11, 10, 8, 7, 5, 4, 2, 1, 0}

  function Tail(): (r: Poly)
    ensures |r| == 32
  {
    seq(32, i => 31 - i in POWERS)
  }

  function Generator(): (r: Poly)
    ensures |r| == 33
  {
    [true] + Tail()
  }

  /** q times the generator. */
  function Times(q: Poly): (r: Poly)
    ensures |r| == |q| + 32
  {
    if q == [] then Zeros(32) else Plus(Times(q[..|q| - 1]) + [false], Zeros(|q| - 1) + Once(q[|q| - 1]))
  }

  /** The generator once or not at all. */
  function Once(b: bool): (r: Poly)
    ensures |r| == 33
  {
    if b then Generator() else Zeros(33)
  }

  /** q and r are quotient and remainder of a polynomial of 32 more coefficients than q. */
  predicate Divides(d: Poly, q: Poly, r: Poly) {
    |r| == 32 && |d| == |q| + 32 && d == Plus(Times(q), Zeros(|q|) + r)
  }

  // ---------------------------------------------------------------- long division, a bit at a time

  /** The remainder once one more bit is brought down. */
  function NextRemainder(r: Poly, b: bool): (r': Poly)
    requires |r| == 32
    ensures |r'| == 32
  {
    if r[0] != b then Plus(r[1..] + [false], Tail()) else r[1..] + [false]
  }

  /** What a text of bits and a starting register are together: the one times x^32, the other times x^n. */
  function Dividend(start: Poly, m: Poly): (d: Poly)
    requires |start| == 32
    ensures |d| == |m| + 32
  {
    Plus(m + Zeros(32), start + Zeros(|m|))
  }

  lemma DividendMore(start: Poly, m: Poly, b: bool)
    requires |start| == 32
    ensures Dividend(start, m + [b]) == Plus(Dividend(start, m) + [false], Zeros(|m|) + [b] + Zeros(32))
  {
    forall i | 0 <= i < |m| + 33
      ensures Dividend(start, m + [b])[i] == Plus(Dividend(start, m) + [false], Zeros(|m|) + [b] + Zeros(32))[i]
    {
    }
  }

  lemma TimesIs(r: Poly, q: Poly, top: bool)
    requires |r| == |q| + 1 && r[..|q|] == q && r[|q|] == top
    ensures Times(r) == Plus(Times(q) + [false], Zeros(|q|) + Once(top))
  {
  }

  lemma TimesMore(q: Poly, top: bool)
    ensures Times(q + [top]) == Plus(Times(q) + [false], Zeros(|q|) + Once(top))
  {
    TimesIs(q + [top], q, top);
  }

  lemma PlusAt(a: Poly, b: Poly, i: nat)
    requires i < |a| == |b|
    ensures Plus(a, b)[i] == (a[i] != b[i])
  {
  }

  lemma WithBit(d: Poly, n: nat, b: bool, i: nat)
    requires |d| == n + 32 && i < n + 33
    ensures Plus(d + [false], Zeros(n) + [b] + Zeros(32))[i] == ((d + [false])[i] != (i == n && b))
  {
  }

  /** The coefficients of a quotient, a remainder and what comes of them, below the quotient's own. */
  lemma Below(d: Poly, q: Poly, r: Poly, i: nat)
    requires Divides(d, q, r) && i < |q| + 33
    ensures (d + [false])[i] == ((Times(q) + [false])[i] != (i >= |q| && (r + [false])[i - |q|]))
  {
  }

  lemma OnceAt(n: nat, top: bool, i: nat)
    requires i < n + 33
    ensures (Zeros(n) + Once(top))[i] == (top && i >= n && (i == n || Tail()[i - n - 1]))
  {
  }

  lemma NextAt(r: Poly, b: bool, j: nat)
    requires |r| == 32 && j < 32
    ensures NextRemainder(r, b)[j] == ((r + [false])[j + 1] != (r[0] != b && Tail()[j]))
  {
    assert (r + [false])[j + 1] == (r[1..] + [false])[j];
  }

  /** Above the new power nothing changes; at it and below, the bit and the generator come in. */
  lemma AtOnePower(d: Poly, q: Poly, r: Poly, b: bool, i: nat)
    requires Divides(d, q, r) && i < |q| + 33
    ensures (Plus(d + [false], Zeros(|q|) + [b] + Zeros(32)))[i] ==
            (Times(q + [r[0] != b])[i] != (i > |q| && NextRemainder(r, b)[i - |q| - 1]))
  {
    var n, top := |q|, r[0] != b;
    TimesMore(q, top);
    PlusAt(Times(q) + [false], Zeros(n) + Once(top), i);
    WithBit(d, n, b, i);
    Below(d, q, r, i);
    OnceAt(n, top, i);
    if i > n { NextAt(r, b, i - n - 1); }
  }

  lemma OneMoreBit(d: Poly, q: Poly, r: Poly, b: bool)
    requires Divides(d, q, r)
    ensures Divides(Plus(d + [false], Zeros(|q|) + [b] + Zeros(32)), q + [r[0] != b], NextRemainder(r, b))
  {
    var n, top := |q|, r[0] != b;
    forall i | 0 <= i < n + 33
      ensures Plus(d + [false], Zeros(n) + [b] + Zeros(32))[i] == Plus(Times(q + [top]), Zeros(n + 1) + NextRemainder(r, b))[i]
    {
      AtOnePower(d, q, r, b, i);
    }
  }

  lemma DivideOn(start: Poly, m: Poly, p: Poly, r: Poly, r': Poly) returns (q: Poly)
    requires |start| == 32 && m != [] && |p| == |m| - 1
    requires Divides(Dividend(start, m[..|m| - 1]), p, r) && r' == NextRemainder(r, m[|m| - 1])
    ensures |q| == |m| && Divides(Dividend(start, m), q, r')
  {
    var b := m[|m| - 1];
    assert m == m[..|m| - 1] + [b];
    DividendMore(start, m[..|m| - 1], b);
    OneMoreBit(Dividend(start, m[..|m| - 1]), p, r, b);
    q := p + [r[0] != b];
  }

  // ---------------------------------------------------------------- quotient and remainder are unique

  lemma DropLast(d: Poly, q: Poly, r: Poly)
    requires Divides(d, q, r) && q != []
    ensures var n := |q| - 1; Divides(d[..n + 32], q[..n], Plus([false] + r[..31], Once(q[n])[..32])) && d[n + 32] == (r[31] != q[n])
  {
    var n := |q| - 1;
    assert Generator()[32];
    forall i | 0 <= i < n + 32
      ensures d[i] == Plus(Times(q[..n]), Zeros(n) + Plus([false] + r[..31], Once(q[n])[..32]))[i]
    {
    }
  }

  lemma {:induction false} DivisionUnique(d: Poly, q: Poly, r: Poly, q': Poly, r': Poly)
    requires Divides(d, q, r) && Divides(d, q', r')
    ensures q == q' && r == r'
    decreases |q|
  {
    if q == [] {
      assert forall i :: 0 <= i < 32 ==> d[i] == r[i] && d[i] == r'[i];
    } else {
      var n := |q| - 1;
      DropLast(d, q, r);
      DropLast(d, q', r');
      var s := Plus([false] + r[..31], Once(q[n])[..32]);
      var s' := Plus([false] + r'[..31], Once(q'[n])[..32]);
      DivisionUnique(d[..n + 32], q[..n], s, q'[..n], s');
      assert s[0] == q[n] && s'[0] == q'[n];
      forall i | 0 <= i < 31
        ensures r[i] == r'[i]
      {
        assert s[i + 1] == s'[i + 1];
      }
      assert q == q[..n] + [q[n]] && q' == q'[..n] + [q'[n]];
    }
  }

  // ---------------------------------------------------------------- registers of bits

  /** The low n bits of a register, the lowest first: the lowest bit stands for the highest power. */
  function Bits<R>(odd: R -> bool, half: R -> R, c: R, n: nat): (r: Poly)
    ensures |r| == n
  {
    if n == 0 then [] else [odd(c)] + Bits(odd, half, half(c), n - 1)
  }

  /** Adding adds bit by bit. */
  ghost predicate AddsBits<R(!new)>(odd: R -> bool, half: R -> R, plus: (R, R) -> R) {
    forall a, b :: odd(plus(a, b)) == (odd(a) != odd(b)) && half(plus(a, b)) == plus(half(a), half(b))
  }

  lemma {:induction false} BitsAdd<R(!new)>(odd: R -> bool, half: R -> R, plus: (R, R) -> R, a: R, b: R, n: nat)
    requires AddsBits(odd, half, plus)
    ensures Bits(odd, half, plus(a, b), n) == Plus(Bits(odd, half, a, n), Bits(odd, half, b, n))
    decreases n
  {
    if n > 0 { BitsAdd(odd, half, plus, half(a), half(b), n - 1); }
  }

  /** A register that halves to zero in n steps has no more than n bits. */
  lemma {:induction false} NoMoreBits<R>(odd: R -> bool, half: R -> R, zero: R, c: R, n: nat)
    requires !odd(zero) && Iter(half, n, c) == zero
    ensures Bits(odd, half, c, n + 1) == Bits(odd, half, c, n) + [false]
    decreases n
  {
    if n > 0 {
      IterMore(half, n - 1, c);
      NoMoreBits(odd, half, zero, half(c), n - 1);
    } else {
      assert Bits(odd, half, c, 1) == [odd(c)];
    }
  }

  /** Halving brings the next lower power up. */
  lemma HalfBits<R>(odd: R -> bool, half: R -> R, zero: R, c: R)
    requires !odd(zero) && Iter(half, 32, c) == zero
    ensures Bits(odd, half, half(c), 32) == Bits(odd, half, c, 32)[1..] + [false]
  {
    IterMore(half, 31, c);
    NoMoreBits(odd, half, zero, half(c), 31);
  }

  /** A register is known by its lowest bit and its half. */
  ghost predicate KnownByBits<R(!new)>(odd: R -> bool, half: R -> R) {
    forall a, b :: half(a) == half(b) && odd(a) == odd(b) ==> a == b
  }

  lemma {:induction false} BitsInjective<R(!new)>(odd: R -> bool, half: R -> R, zero: R, a: R, b: R, n: nat)
    requires KnownByBits(odd, half) && Iter(half, n, a) == zero == Iter(half, n, b) && Bits(odd, half, a, n) == Bits(odd, half, b, n)
    ensures a == b
    decreases n
  {
    if n > 0 {
      IterMore(half, n - 1, a);
      IterMore(half, n - 1, b);
      assert Bits(odd, half, a, n)[0] == Bits(odd, half, b, n)[0] && Bits(odd, half, a, n)[1..] == Bits(odd, half, b, n)[1..];
      BitsInjective(odd, half, zero, half(a), half(b), n - 1);
    }
  }

  lemma TwoBits<R>(odd: R -> bool, half: R -> R, c0: R, c1: R, c2: R, n: nat)
    requires half(c0) == c1 && half(c1) == c2
    ensures Bits(odd, half, c0, n + 2) == [odd(c0), odd(c1)] + Bits(odd, half, c2, n)
  {
    assert Bits(odd, half, c1, n + 1) == [odd(c1)] + Bits(odd, half, c2, n);
  }

  lemma FourBits<R>(odd: R -> bool, half: R -> R, c0: R, c1: R, c2: R, c3: R, c4: R, n: nat)
    requires half(c0) == c1 && half(c1) == c2 && half(c2) == c3 && half(c3) == c4
    ensures Bits(odd, half, c0, n + 4) == [odd(c0), odd(c1), odd(c2), odd(c3)] + Bits(odd, half, c4, n)
  {
    TwoBits(odd, half, c2, c3, c4, n);
    TwoBits(odd, half, c0, c1, c2, n + 2);
  }

  // ---------------------------------------------------------------- registers that divide

  /** A bit enters at the top: the register moves up, and if a power of x^32 comes out, the rest of the generator is added. */
  ghost predicate Feeds<R(!new)>(feed: (R, bool) -> R, odd: R -> bool, half: R -> R, plus: (R, R) -> R, poly: R) {
    forall c, b :: feed(c, b) == if odd(c) != b then plus(half(c), poly) else half(c)
  }

  /** Every register has 32 bits at most. */
  ghost predicate ThirtyTwo<R(!new)>(half: R -> R, zero: R) {
    forall c :: Iter(half, 32, c) == zero
  }

  lemma FeedDivides<R(!new)>(feed: (R, bool) -> R, odd: R -> bool, half: R -> R, plus: (R, R) -> R, poly: R, zero: R, c: R, b: bool)
    requires Feeds(feed, odd, half, plus, poly) && AddsBits(odd, half, plus) && ThirtyTwo(half, zero) && !odd(zero)
    requires Bits(odd, half, poly, 32) == Tail()
    ensures Bits(odd, half, feed(c, b), 32) == NextRemainder(Bits(odd, half, c, 32), b)
  {
    HalfBits(odd, half, zero, c);
    BitsAdd(odd, half, plus, half(c), poly, 32);
  }

  lemma NothingDivided(start: Poly)
    requires |start| == 32
    ensures Divides(Dividend(start, []), [], start)
  {
    assert Dividend(start, []) == start && Plus(Zeros(32), Zeros(0) + start) == start;
  }

  /** One bit fed is one step of the long division. */
  ghost predicate DividesOn<R(!new)>(feed: (R, bool) -> R, odd: R -> bool, half: R -> R) {
    forall c, b :: Bits(odd, half, feed(c, b), 32) == NextRemainder(Bits(odd, half, c, 32), b)
  }

  /** Feeding bits into such a register divides them, with what the register held at first added to the first 32 of them. */
  lemma {:induction false} BitsDivide<R(!new)>(feed: (R, bool) -> R, odd: R -> bool, half: R -> R, c: R, m: Poly) returns (q: Poly)
    requires DividesOn(feed, odd, half)
    ensures |q| == |m| && Divides(Dividend(Bits(odd, half, c, 32), m), q, Bits(odd, half, Fold(feed, c, m), 32))
    decreases |m|
  {
    var start := Bits(odd, half, c, 32);
    if m == [] {
      q := [];
      NothingDivided(start);
    } else {
      var shorter, b := m[..|m| - 1], m[|m| - 1];
      var p := BitsDivide(feed, odd, half, c, shorter);
      var mid := Fold(feed, c, shorter);
      q := DivideOn(start, m, p, Bits(odd, half, mid, 32), Bits(odd, half, feed(mid, b), 32));
    }
  }

  /** One shift takes in the lowest bit of what was added, and leaves the rest of it added. */
  ghost predicate TakesIn<R(!new)>(shift: R -> R, feed: (R, bool) -> R, odd: R -> bool, half: R -> R, plus: (R, R) -> R) {
    forall c, x :: shift(plus(c, x)) == plus(feed(c, odd(x)), half(x))
  }

  /** Adding n bits at once and then shifting comes to the same as feeding them one by one. */
  lemma {:induction false} FeedMany<R(!new)>(shift: R -> R, feed: (R, bool) -> R, odd: R -> bool, half: R -> R, plus: (R, R) -> R, c: R, x: R, n: nat)
    requires TakesIn(shift, feed, odd, half, plus)
    ensures Iter(shift, n, plus(c, x)) == plus(Fold(feed, c, Bits(odd, half, x, n)), Iter(half, n, x))
    decreases n
  {
    if n > 0 {
      var b, rest := odd(x), Bits(odd, half, half(x), n - 1);
      IterMore(shift, n - 1, plus(c, x));
      IterMore(half, n - 1, x);
      FeedMany(shift, feed, odd, half, plus, feed(c, b), half(x), n - 1);
      FoldAppend(feed, c, [b], rest);
      assert [b][..0] == [] && Fold(feed, c, [b]) == feed(c, b);
    }
  }
}

/**
 What the register of the CRC computes, said without it.  By section 3.2.9 of IEEE
 802.3 the checksum is the complement of a remainder: that of the text, its first 32
 bits complemented and 32 zeros behind it, divided by the generator.
 */
module CrcDivision {
  import opened Folds
  import opened Crc32
  import opened Division

  function Half(c: bv32): bv32 {
    c >> 1
  }

  /** One bit of the text enters the register. */
  function Feed(c: bv32, b: bool): bv32 {
    ShiftBit(if b then c ^ 1 else c)
  }

  /** The register as a polynomial. */
  function BitsOf(c: bv32, n: nat): (r: Poly)
    ensures |r| == n
  {
    Bits(Odd, Half, c, n)
  }

  // ---------------------------------------------------------------- the facts about words

  lemma XorHalves(a: bv32, b: bv32)
    ensures Odd(a ^ b) == (Odd(a) != Odd(b)) && Half(a ^ b) == Half(a) ^ Half(b)
  {
  }

  lemma XorAddsBits()
    ensures AddsBits(Odd, Half, Xor)
  {
    forall a, b ensures Odd(Xor(a, b)) == (Odd(a) != Odd(b)) && Half(Xor(a, b)) == Xor(Half(a), Half(b)) { XorHalves(a, b); }
  }

  lemma EightHalves(c: bv32)
    ensures Iter(Half, 8, c) == c >> 8
  {
    assert Half(c >> 1) == c >> 2 && Half(c >> 2) == c >> 3 && Half(c >> 3) == c >> 4 && Half(c >> 4) == c >> 5;
    assert Half(c >> 5) == c >> 6 && Half(c >> 6) == c >> 7 && Half(c >> 7) == c >> 8;
    IterEight(Half, c, c >> 1, c >> 2, c >> 3, c >> 4, c >> 5, c >> 6, c >> 7, c >> 8);
  }

  lemma {:induction false} IterSum<R>(f: R -> R, a: nat, b: nat, c: R)
    ensures Iter(f, a + b, c) == Iter(f, a, Iter(f, b, c))
  {
    if a > 0 { IterSum(f, a - 1, b, c); }
  }

  lemma ShiftedOut(c: bv32)
    ensures (((c >> 8) >> 8) >> 8) >> 8 == 0
  {
  }

  lemma WordsHave32Bits()
    ensures ThirtyTwo(Half, 0) && !Odd(0)
  {
    forall c ensures Iter(Half, 32, c) == 0 {
      IterSum(Half, 8, 8, c);
      IterSum(Half, 8, 16, c);
      IterSum(Half, 8, 24, c);
      EightHalves(c);
      EightHalves(c >> 8);
      EightHalves((c >> 8) >> 8);
      EightHalves(((c >> 8) >> 8) >> 8);
      ShiftedOut(c);
    }
  }

  lemma HalfAndBit(a: bv32, b: bv32)
    requires Half(a) == Half(b) && Odd(a) == Odd(b)
    ensures a == b
  {
  }

  lemma WordsKnownByBits()
    ensures KnownByBits(Odd, Half)
  {
    forall a, b ensures Half(a) == Half(b) && Odd(a) == Odd(b) ==> a == b { if Half(a) == Half(b) && Odd(a) == Odd(b) { HalfAndBit(a, b); } }
  }

  lemma FeedIs(c: bv32, b: bool)
    ensures Feed(c, b) == if Odd(c) != b then Xor(Half(c), POLY) else Half(c)
  {
  }

  lemma FeedFeeds()
    ensures Feeds(Feed, Odd, Half, Xor, POLY)
  {
    forall c, b ensures Feed(c, b) == if Odd(c) != b then Xor(Half(c), POLY) else Half(c) { FeedIs(c, b); }
  }

  lemma SplitXor(c: bv32, x: bv32)
    ensures c ^ x == (c ^ 1) ^ (x ^ 1)
  {
  }

  lemma EvenShifts(x: bv32)
    requires !Odd(x)
    ensures ShiftBit(x) == Half(x)
  {
  }

  lemma OddShifts(x: bv32)
    requires Odd(x)
    ensures !Odd(x ^ 1) && Half(x ^ 1) == Half(x)
  {
  }

  lemma SplitOff(c: bv32, x: bv32) returns (lower: bv32, even: bv32)
    ensures lower == (if Odd(x) then c ^ 1 else c) && Xor(c, x) == Xor(lower, even) && ShiftBit(even) == Half(x)
  {
    lower, even := c, x;
    if Odd(x) {
      lower, even := c ^ 1, x ^ 1;
      SplitXor(c, x);
      OddShifts(x);
    }
    EvenShifts(even);
  }

  lemma TakesInOne<R(!new)>(shift: R -> R, plus: (R, R) -> R, c: R, x: R, lower: R, even: R, h: R)
    requires Additive(shift, plus) && plus(c, x) == plus(lower, even) && shift(even) == h
    ensures shift(plus(c, x)) == plus(shift(lower), h)
  {
  }

  lemma ShiftTakesIn()
    ensures TakesIn(ShiftBit, Feed, Odd, Half, Xor)
  {
    BitIsGood();
    forall c, x ensures ShiftBit(Xor(c, x)) == Xor(Feed(c, Odd(x)), Half(x)) {
      var lower, even := SplitOff(c, x);
      TakesInOne(ShiftBit, Xor, c, x, lower, even, Half(x));
    }
  }

  lemma Nibble(c: bv32, n: nat)
    ensures BitsOf(c, n + 4) == [Odd(c), Odd(c >> 1), Odd(c >> 2), Odd(c >> 3)] + BitsOf(c >> 4, n)
  {
    assert Half(c >> 1) == c >> 2 && Half(c >> 2) == c >> 3 && Half(c >> 3) == c >> 4;
    FourBits(Odd, Half, c, c >> 1, c >> 2, c >> 3, c >> 4, n);
  }

  lemma PolyLow()
    ensures BitsOf(POLY, 32) == [false, false, false, false, false, true, false, false, true, true, false, false, false, false, false, true] + BitsOf(0xEDB8, 16)
  {
    Nibble(0xEDB88320, 28);
    Nibble(0xEDB8832, 24);
    Nibble(0xEDB883, 20);
    Nibble(0xEDB88, 16);
  }

  lemma PolyHigh()
    ensures BitsOf(0xEDB8, 16) == [false, false, false, true, true, true, false, true, true, false, true, true, false, true, true, true]
  {
    Nibble(0xEDB8, 12);
    Nibble(0xEDB, 8);
    Nibble(0xED, 4);
    Nibble(0xE, 0);
  }

  lemma TailIs()
    ensures Tail() == [false, false, false, false, false, true, false, false, true, true, false, false, false, false, false, true]
                      + [false, false, false, true, true, true, false, true, true, false, true, true, false, true, true, true]
  {
    var low := [false, false, false, false, false, true, false, false, true, true, false, false, false, false, false, true];
    var high := [false, false, false, true, true, true, false, true, true, false, true, true, false, true, true, true];
    forall i | 0 <= i < 16
      ensures low[i] == (31 - i in POWERS) && high[i] == (15 - i in POWERS)
    {
      assert i < 8 ==> i == 0 || i == 1 || i == 2 || i == 3 || i == 4 || i == 5 || i == 6 || i == 7;
      assert i >= 8 ==> i == 8 || i == 9 || i == 10 || i == 11 || i == 12 || i == 13 || i == 14 || i == 15;
    }
  }

  /** The constant holds the generator's powers below 32. */
  lemma PolyBits()
    ensures BitsOf(POLY, 32) == Tail()
  {
    PolyLow();
    PolyHigh();
    TailIs();
  }

  lemma OnesLow()
    ensures BitsOf(0xFFFF_FFFF, 32) == Ones(16) + BitsOf(0xFFFF, 16)
  {
    Nibble(0xFFFFFFFF, 28);
    Nibble(0xFFFFFFF, 24);
    Nibble(0xFFFFFF, 20);
    Nibble(0xFFFFF, 16);
  }

  lemma OnesHigh()
    ensures BitsOf(0xFFFF, 16) == Ones(16)
  {
    Nibble(0xFFFF, 12);
    Nibble(0xFFF, 8);
    Nibble(0xFF, 4);
    Nibble(0xF, 0);
  }

  lemma AllOnes()
    ensures BitsOf(0xFFFF_FFFF, 32) == Ones(32)
  {
    OnesLow();
    OnesHigh();
  }

  lemma WordsDivide()
    ensures DividesOn(Feed, Odd, Half)
  {
    FeedFeeds();
    XorAddsBits();
    WordsHave32Bits();
    PolyBits();
    forall c, b ensures Bits(Odd, Half, Feed(c, b), 32) == NextRemainder(Bits(Odd, Half, c, 32), b) {
      FeedDivides(Feed, Odd, Half, Xor, POLY, 0, c, b);
    }
  }

  // ---------------------------------------------------------------- bits, bytes and texts

  /** The bits of a text in the order in which they are sent: each octet's lowest first. */
  function TextBits(s: seq<octet>): (m: Poly)
    ensures |m| == 8 * |s|
  {
    if s == [] then [] else TextBits(s[..|s| - 1]) + BitsOf(Widen(s[|s| - 1]), 8)
  }

  lemma OctetRunsOut(o: octet)
    ensures Widen(o) >> 8 == 0
  {
  }

  lemma XorZero(c: bv32, z: bv32)
    requires z == 0
    ensures Xor(c, z) == c
  {
  }

  /** A byte step is eight bit steps. */
  lemma StepFeeds(c: bv32, o: octet)
    ensures Step(c, o) == Fold(Feed, c, BitsOf(Widen(o), 8))
  {
    ShiftTakesIn();
    FeedMany(ShiftBit, Feed, Odd, Half, Xor, c, Widen(o), 8);
    EightHalves(Widen(o));
    OctetRunsOut(o);
    XorZero(Fold(Feed, c, BitsOf(Widen(o), 8)), Iter(Half, 8, Widen(o)));
  }

  lemma {:induction false} TextFeeds(c: bv32, s: seq<octet>)
    ensures Fold(Step, c, s) == Fold(Feed, c, TextBits(s))
    decreases |s|
  {
    if s != [] {
      var shorter, o := s[..|s| - 1], s[|s| - 1];
      TextFeeds(c, shorter);
      StepFeeds(Fold(Step, c, shorter), o);
      FoldAppend(Feed, c, TextBits(shorter), BitsOf(Widen(o), 8));
    }
  }

  // ---------------------------------------------------------------- the definition

  /** c is the checksum of s by the definition: complemented, it is the remainder. */
  ghost predicate IsChecksum(s: seq<octet>, c: bv32) {
    exists q :: |q| == 8 * |s| && Divides(Dividend(Ones(32), TextBits(s)), q, Plus(Ones(32), BitsOf(c, 32)))
  }

  lemma ComplementTwice(p: Poly)
    requires |p| == 32
    ensures Plus(Ones(32), Plus(p, Ones(32))) == p
  {
  }

  lemma ComplementInjective(p: Poly, r: Poly)
    requires |p| == |r| == 32 && Plus(Ones(32), p) == Plus(Ones(32), r)
    ensures p == r
  {
    forall i | 0 <= i < 32 ensures p[i] == r[i] { assert Plus(Ones(32), p)[i] == Plus(Ones(32), r)[i]; }
  }

  /** What is left in the register is the remainder. */
  lemma RegisterDivides(s: seq<octet>) returns (q: Poly)
    ensures |q| == 8 * |s| && Divides(Dividend(Ones(32), TextBits(s)), q, BitsOf(Fold(Step, 0xFFFF_FFFF, s), 32))
  {
    WordsDivide();
    AllOnes();
    q := BitsDivide(Feed, Odd, Half, 0xFFFF_FFFF, TextBits(s));
    TextFeeds(0xFFFF_FFFF, s);
  }

  lemma CrcBits(s: seq<octet>)
    ensures Plus(Ones(32), BitsOf(Crc(s), 32)) == BitsOf(Fold(Step, 0xFFFF_FFFF, s), 32)
  {
    XorAddsBits();
    BitsAdd(Odd, Half, Xor, Fold(Step, 0xFFFF_FFFF, s), 0xFFFF_FFFF, 32);
    AllOnes();
    ComplementTwice(BitsOf(Fold(Step, 0xFFFF_FFFF, s), 32));
  }

  lemma SameBits(c: bv32, d: bv32)
    requires BitsOf(c, 32) == BitsOf(d, 32)
    ensures c == d
  {
    WordsKnownByBits();
    WordsHave32Bits();
    BitsInjective(Odd, Half, 0, c, d, 32);
  }

  /** The register computes the checksum of the definition, and nothing else is one. */
  lemma CrcIff(s: seq<octet>, c: bv32)
    ensures IsChecksum(s, c) <==> c == Crc(s)
  {
    var q := RegisterDivides(s);
    CrcBits(s);
    if IsChecksum(s, c) {
      var p :| |p| == 8 * |s| && Divides(Dividend(Ones(32), TextBits(s)), p, Plus(Ones(32), BitsOf(c, 32)));
      DivisionUnique(Dividend(Ones(32), TextBits(s)), p, Plus(Ones(32), BitsOf(c, 32)), q, BitsOf(Fold(Step, 0xFFFF_FFFF, s), 32));
      ComplementInjective(BitsOf(c, 32), BitsOf(Crc(s), 32));
      SameBits(c, Crc(s));
    }
  }
}
