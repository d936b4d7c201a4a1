/** The CRC-16 service functions of CoreMark (crcu8, crcu16, crcu32), their
    meaning as a remainder of polynomials over GF(2), and the burst errors they
    are sure to detect. */
module Crc {
  import opened Basics

  // ----- polynomials over GF(2) --------------------------------------------------

  // A polynomial is the sequence of its coefficients, highest power first.

  type Poly = seq<bool>

  /** x^16 + x^15 + x^2 + 1 without its leading term. */
  function Divisor(): (p: Poly)
    ensures |p| == 16
  {
    seq(16, i => i == 0 || i == 13 || i == 15)
  }

  function Xor(xs: Poly, ys: Poly): (r: Poly)
    requires |xs| == |ys|
    ensures |r| == |xs|
  {
    seq(|xs|, i requires 0 <= i < |xs| => xs[i] != ys[i])
  }

  /** Schoolbook division: cancel the leading coefficient with a multiple of the
      divisor until only 16 coefficients are left. */
  function Remainder(p: Poly): (r: Poly)
    requires |p| >= 16
    ensures |r| == 16
    decreases |p|
  {
    if |p| == 16 then p
    else Remainder(if p[0] then Xor(p[1..17], Divisor()) + p[17..] else p[1..])
  }

  // ----- the shift register --------------------------------------------------------

  /** The register as a polynomial: its lowest bit is the coefficient of x^15. */
  function RegisterPoly(crc: bv16): (p: Poly)
    ensures |p| == 16
  {
    seq(16, i requires 0 <= i < 16 => Bit(crc, i))
  }

  predicate Bit(crc: bv16, i: nat)
    requires i < 16
  {
    match i
    case 0 => crc & 0x0001 != 0
    case 1 => crc & 0x0002 != 0
    case 2 => crc & 0x0004 != 0
    case 3 => crc & 0x0008 != 0
    case 4 => crc & 0x0010 != 0
    case 5 => crc & 0x0020 != 0
    case 6 => crc & 0x0040 != 0
    case 7 => crc & 0x0080 != 0
    case 8 => crc & 0x0100 != 0
    case 9 => crc & 0x0200 != 0
    case 10 => crc & 0x0400 != 0
    case 11 => crc & 0x0800 != 0
    case 12 => crc & 0x1000 != 0
    case 13 => crc & 0x2000 != 0
    case 14 => crc & 0x4000 != 0
    case 15 => crc & 0x8000 != 0
  }

  /** One clock: shift up by one power, and reduce when the bit that leaves
      differs from the bit that arrives. */
  function Step(bit: bool, p: Poly): (q: Poly)
    requires |p| == 16
    ensures |q| == 16
  {
    var up := p[1..] + [false];
    if p[0] != bit then Xor(up, Divisor()) else up
  }

  function Feed(bits: seq<bool>, p: Poly): (q: Poly)
    requires |p| == 16
    ensures |q| == 16
    decreases |bits|
  {
    if bits == [] then p else Feed(bits[1..], Step(bits[0], p))
  }

  /** The bits of a byte in the order they reach the register. */
  function ByteBits(b: bv8): (bits: seq<bool>)
    ensures |bits| == 8
  {
    seq(8, i requires 0 <= i < 8 => ByteBit(b, i))
  }

  predicate ByteBit(b: bv8, i: nat)
    requires i < 8
  {
    match i
    case 0 => b & 1 != 0
    case 1 => b & 2 != 0
    case 2 => b & 4 != 0
    case 3 => b & 8 != 0
    case 4 => b & 16 != 0
    case 5 => b & 32 != 0
    case 6 => b & 64 != 0
    case 7 => b & 128 != 0
  }

  /** The bits of a byte message. */
  function MessageBits(m: seq<bv8>): (bits: seq<bool>)
    ensures |bits| == 8 * |m|
  {
    if m == [] then [] else ByteBits(m[0]) + MessageBits(m[1..])
  }

  function LowByte(w: bv16): bv8 { (w & 0xff) as bv8 }
  function HighByte(w: bv16): bv8 { (w >> 8) as bv8 }
  function LowWord(w: bv32): bv16 { (w & 0xffff) as bv16 }
  function HighWord(w: bv32): bv16 { (w >> 16) as bv16 }

  /** Little-endian bytes of a 16-bit and of a 32-bit value. */
  function WordBytes(w: bv16): seq<bv8> { [LowByte(w), HighByte(w)] }
  function LongBytes(w: bv32): seq<bv8> { WordBytes(LowWord(w)) + WordBytes(HighWord(w)) }

  /** The register r is what the bytes m make of the register crc. */
  ghost predicate After(m: seq<bv8>, crc: bv16, r: bv16) {
    RegisterPoly(r) == Feed(MessageBits(m), RegisterPoly(crc))
  }

  lemma AfterNothing(crc: bv16)
    ensures After([], crc, crc)
  {
  }

  /** Chaining. */
  lemma AfterBoth(m: seq<bv8>, n: seq<bv8>, crc: bv16, mid: bv16, r: bv16)
    requires After(m, crc, mid) && After(n, mid, r)
    ensures After(m + n, crc, r)
  {
    hide Feed, RegisterPoly, MessageBits;
    MessageConcat(m, n, RegisterPoly(crc));
  }

  /** Low byte first: the bytes of a value make it up again, each eight bits further up. */
  lemma BytesRebuild(w: bv16, v: bv32)
    ensures |WordBytes(w)| == 2 && w == (WordBytes(w)[1] as bv16 << 8) | WordBytes(w)[0] as bv16
    ensures |LongBytes(v)| == 4
    ensures v == (LongBytes(v)[3] as bv32 << 24) | (LongBytes(v)[2] as bv32 << 16)
                 | (LongBytes(v)[1] as bv32 << 8) | LongBytes(v)[0] as bv32
  {
  }

  // ----- the code --------------------------------------------------------------------

  /** Feeds the eight bits of `data`, lowest first, into the register. */
  method Crcu8(data: bv8, crc: bv16) returns (r: bv16)
    ensures After([data], crc, r)
  {
    var d := data;
    r := crc;
    ghost var bits := ByteBits(data);
    assert MessageBits([data]) == bits;
    for i := 0 to 8
      invariant bits[i..] == ByteBits(d)[..8 - i]
      invariant Feed(bits, RegisterPoly(crc)) == Feed(bits[i..], RegisterPoly(r))
    {
      FirstBit(d);
      assert bits[i] == bits[i..][0] == ByteBits(d)[0];
      assert bits[i + 1..] == bits[i..][1..] == ByteBits(d)[..8 - i][1..] == ByteBits(d)[1..][..7 - i];
      var x16 := Parity(d, r);
      ByteShift(d);
      assert ByteBits(d >> 1)[..7][..7 - i] == ByteBits(d >> 1)[..7 - i];
      d := d >> 1;
      r := Shift(bits[i], x16 == 1, r);
    }
    assert bits[8..] == [];
  }

  /** The bit that leaves the register added to the bit that arrives. */
  function Parity(data: bv8, crc: bv16): (x16: bv8)
    ensures x16 == 1 <==> ((crc & 1 != 0) != (data & 1 != 0))
  {
    (data & 1) ^ (LowByte(crc) & 1)
  }

  /** The rest of the loop body of crcu8. */
  method Shift(ghost bit: bool, flip: bool, crc: bv16) returns (r: bv16)
    requires flip <==> (crc & 1 != 0) != bit
    ensures RegisterPoly(r) == Step(bit, RegisterPoly(crc))
  {
    r := crc;
    var carry;
    if flip {
      r := r ^ 0x4002;
      carry := true;
    } else {
      carry := false;
    }
    r := r >> 1;
    if carry {
      r := r | 0x8000;
    } else {
      r := r & 0x7fff;
    }
    Clocked(crc, r, bit);
  }

  method Crcu16(newval: bv16, crc: bv16) returns (r: bv16)
    ensures After(WordBytes(newval), crc, r)
  {
    hide After, LowByte, HighByte;
    var low := Crcu8(LowByte(newval), crc);
    r := Crcu8(HighByte(newval), low);
    AfterBoth([LowByte(newval)], [HighByte(newval)], crc, low, r);
    assert WordBytes(newval) == [LowByte(newval)] + [HighByte(newval)];
  }

  method Crcu32(newval: bv32, crc: bv16) returns (r: bv16)
    ensures After(LongBytes(newval), crc, r)
  {
    hide After, WordBytes, LowWord, HighWord;
    var low := Crcu16(LowWord(newval), crc);
    r := Crcu16(HighWord(newval), low);
    AfterBoth(WordBytes(LowWord(newval)), WordBytes(HighWord(newval)), crc, low, r);
  }

  lemma ByteShift(d: bv8)
    ensures ByteBits(d >> 1)[..7] == ByteBits(d)[1..]
  {
    ByteShiftMasks(d);
  }

  lemma ByteShiftMasks(d: bv8)
    ensures ((d >> 1) & 1 != 0) == (d & 2 != 0) && ((d >> 1) & 2 != 0) == (d & 4 != 0)
    ensures ((d >> 1) & 4 != 0) == (d & 8 != 0) && ((d >> 1) & 8 != 0) == (d & 16 != 0)
    ensures ((d >> 1) & 16 != 0) == (d & 32 != 0) && ((d >> 1) & 32 != 0) == (d & 64 != 0)
    ensures ((d >> 1) & 64 != 0) == (d & 128 != 0)
  {
  }

  lemma FirstBit(d: bv8)
    ensures ByteBits(d)[0] == (d & 1 != 0)
  {
    assert ByteBits(d)[0] == ByteBit(d, 0);
  }

  /** The two arms of the loop body of crcu8 are one clock of the register. */
  lemma Clocked(r: bv16, s: bv16, bit: bool)
    requires s == if (r & 1 != 0) != bit then ((r ^ 0x4002) >> 1) | 0x8000 else (r >> 1) & 0x7fff
    ensures RegisterPoly(s) == Step(bit, RegisterPoly(r))
  {
    var p, q := RegisterPoly(r), RegisterPoly(s);
    forall i | 0 <= i < 16
      ensures q[i] == Step(bit, p)[i]
    {
      ClockedBit(r, s, bit, i);
      assert p[0] == Bit(r, 0) && q[i] == Bit(s, i);
      assert i < 15 ==> p[i + 1] == Bit(r, i + 1);
    }
  }

  lemma ClockedBit(r: bv16, s: bv16, bit: bool, i: nat)
    requires s == if (r & 1 != 0) != bit then ((r ^ 0x4002) >> 1) | 0x8000 else (r >> 1) & 0x7fff
    requires i < 16
    ensures Bit(s, i) == ((i < 15 && Bit(r, i + 1)) != (Divisor()[i] && Bit(r, 0) != bit))
  {
    if i < 8 {
      ClockedLow(r, s, bit, i);
    } else {
      ClockedHigh(r, s, bit, i);
    }
  }

  lemma ClockedLow(r: bv16, s: bv16, bit: bool, i: nat)
    requires s == if (r & 1 != 0) != bit then ((r ^ 0x4002) >> 1) | 0x8000 else (r >> 1) & 0x7fff
    requires i < 8
    ensures Bit(s, i) == (Bit(r, i + 1) != (i == 0 && Bit(r, 0) != bit))
  {
    ShiftLow(r, s, bit);
  }

  lemma ClockedHigh(r: bv16, s: bv16, bit: bool, i: nat)
    requires s == if (r & 1 != 0) != bit then ((r ^ 0x4002) >> 1) | 0x8000 else (r >> 1) & 0x7fff
    requires 8 <= i < 16
    ensures Bit(s, i) == ((i < 15 && Bit(r, i + 1)) != ((i == 13 || i == 15) && Bit(r, 0) != bit))
  {
    ShiftHigh(r, s, bit);
  }

  lemma ShiftLow(r: bv16, s: bv16, bit: bool)
    requires s == if (r & 1 != 0) != bit then ((r ^ 0x4002) >> 1) | 0x8000 else (r >> 1) & 0x7fff
    ensures (s & 0x0001 != 0) == ((r & 0x0002 != 0) != ((r & 1 != 0) != bit))
    ensures (s & 0x0002 != 0) == (r & 0x0004 != 0) && (s & 0x0004 != 0) == (r & 0x0008 != 0)
    ensures (s & 0x0008 != 0) == (r & 0x0010 != 0) && (s & 0x0010 != 0) == (r & 0x0020 != 0)
    ensures (s & 0x0020 != 0) == (r & 0x0040 != 0) && (s & 0x0040 != 0) == (r & 0x0080 != 0)
    ensures (s & 0x0080 != 0) == (r & 0x0100 != 0)
  {
  }

  lemma ShiftHigh(r: bv16, s: bv16, bit: bool)
    requires s == if (r & 1 != 0) != bit then ((r ^ 0x4002) >> 1) | 0x8000 else (r >> 1) & 0x7fff
    ensures (s & 0x0100 != 0) == (r & 0x0200 != 0) && (s & 0x0200 != 0) == (r & 0x0400 != 0)
    ensures (s & 0x0400 != 0) == (r & 0x0800 != 0) && (s & 0x0800 != 0) == (r & 0x1000 != 0)
    ensures (s & 0x1000 != 0) == (r & 0x2000 != 0)
    ensures (s & 0x2000 != 0) == ((r & 0x4000 != 0) != ((r & 1 != 0) != bit))
    ensures (s & 0x4000 != 0) == (r & 0x8000 != 0)
    ensures (s & 0x8000 != 0) == ((r & 1 != 0) != bit)
  {
  }

  lemma {:induction false} FeedConcat(xs: seq<bool>, ys: seq<bool>, p: Poly)
    requires |p| == 16
    ensures Feed(xs + ys, p) == Feed(ys, Feed(xs, p))
    decreases |xs|
  {
    if xs == [] {
      assert xs + ys == ys;
    } else {
      assert (xs + ys)[1..] == xs[1..] + ys;
      FeedConcat(xs[1..], ys, Step(xs[0], p));
    }
  }

  lemma {:induction false} MessageBitsConcat(m: seq<bv8>, n: seq<bv8>)
    ensures MessageBits(m + n) == MessageBits(m) + MessageBits(n)
    decreases |m|
  {
    if m == [] {
      assert m + n == n;
    } else {
      assert (m + n)[1..] == m[1..] + n;
      MessageBitsConcat(m[1..], n);
    }
  }

  /** Chaining calls is the same as one call on the joined byte stream. */
  lemma MessageConcat(m: seq<bv8>, n: seq<bv8>, p: Poly)
    requires |p| == 16
    ensures Feed(MessageBits(m + n), p) == Feed(MessageBits(n), Feed(MessageBits(m), p))
  {
    MessageBitsConcat(m, n);
    FeedConcat(MessageBits(m), MessageBits(n), p);
  }

  // ----- the register holds a remainder -------------------------------------------------

  /** The dividend: the start value in front, the message followed by 16 zeros. */
  function Dividend(p: Poly, bits: seq<bool>): (d: Poly)
    requires |p| == 16
    ensures |d| == |bits| + 16
  {
    Xor(p + Zeros(|bits|), bits + Zeros(16))
  }

  /** Feeding a message computes the remainder of message * x^16, with the start
      value added to its 16 leading coefficients. */
  lemma {:induction false} FeedIsRemainder(bits: seq<bool>, p: Poly)
    requires |p| == 16
    ensures Feed(bits, p) == Remainder(Dividend(p, bits))
    decreases |bits|
  {
    if bits == [] {
      assert Dividend(p, bits) == p;
    } else {
      FeedIsRemainder(bits[1..], Step(bits[0], p));
      DividendStep(p, bits);
    }
  }

  lemma DividendStep(p: Poly, bits: seq<bool>)
    requires |p| == 16 && bits != []
    ensures var d := Dividend(p, bits);
      Dividend(Step(bits[0], p), bits[1..]) == if d[0] then Xor(d[1..17], Divisor()) + d[17..] else d[1..]
  {
    var d, q := Dividend(p, bits), Step(bits[0], p);
    var r := if d[0] then Xor(d[1..17], Divisor()) + d[17..] else d[1..];
    var e := Dividend(q, bits[1..]);
    forall i | 0 <= i < |e| ensures e[i] == r[i] {
      assert d[i + 1] == ((p + Zeros(|bits|))[i + 1] != (bits + Zeros(16))[i + 1]);
      assert e[i] == ((q + Zeros(|bits| - 1))[i] != (bits[1..] + Zeros(16))[i]);
    }
  }

  // ----- burst errors ----------------------------------------------------------------------

  lemma StepInjective(bit: bool, p: Poly, q: Poly)
    requires |p| == |q| == 16 && Step(bit, p) == Step(bit, q)
    ensures p == q
  {
    var u, v := Step(bit, p), Step(bit, q);
    assert u[0] == ((p[1] != (p[0] != bit))) && v[0] == ((q[1] != (q[0] != bit)));
    assert u[15] == (p[0] != bit) && v[15] == (q[0] != bit);
    forall i | 0 <= i < 16 ensures p[i] == q[i] {
      if i > 0 {
        assert u[i - 1] == v[i - 1];
      }
    }
  }

  lemma {:induction false} FeedInjective(bits: seq<bool>, p: Poly, q: Poly)
    requires |p| == |q| == 16 && Feed(bits, p) == Feed(bits, q)
    ensures p == q
    decreases |bits|
  {
    if bits != [] {
      FeedInjective(bits[1..], Step(bits[0], p), Step(bits[0], q));
      StepInjective(bits[0], p, q);
    }
  }

  /** Adding a whole window to the register and then clocking in zeros absorbs the
      window's bits one by one. */
  lemma Absorb(p: Poly, w: Poly)
    requires |p| == |w| == 16
    ensures Step(false, Xor(p, w)) == Xor(Step(w[0], p), w[1..] + [false])
  {
  }

  lemma {:induction false} WindowAtOnce(bits: seq<bool>, p: Poly)
    requires |p| == 16 && |bits| <= 16
    ensures Feed(bits, p) == Feed(Zeros(|bits|), Xor(p, bits + Zeros(16 - |bits|)))
    decreases |bits|
  {
    if bits == [] {
      assert Xor(p, bits + Zeros(16)) == p;
    } else {
      var tail := bits[1..];
      var w := bits + Zeros(16 - |bits|);
      WindowAtOnce(tail, Step(bits[0], p));
      Absorb(p, w);
      assert w[1..] + [false] == tail + Zeros(16 - |tail|);
      assert Zeros(|bits|)[1..] == Zeros(|tail|);
    }
  }

  lemma WindowInjective(w1: seq<bool>, w2: seq<bool>, p: Poly)
    requires |p| == 16 && |w1| == |w2| <= 16 && Feed(w1, p) == Feed(w2, p)
    ensures w1 == w2
  {
    WindowAtOnce(w1, p);
    WindowAtOnce(w2, p);
    var x1, x2 := Xor(p, w1 + Zeros(16 - |w1|)), Xor(p, w2 + Zeros(16 - |w2|));
    FeedInjective(Zeros(|w1|), x1, x2);
    forall i | 0 <= i < |w1| ensures w1[i] == w2[i] {
      assert x1[i] == (p[i] != w1[i]) && x2[i] == (p[i] != w2[i]);
    }
  }

  /** Bit messages of any length that differ only inside one window of at most
      16 bits have different CRCs, whatever the start value. */
  lemma BurstDetected(front: seq<bool>, w1: seq<bool>, w2: seq<bool>, back: seq<bool>, p: Poly)
    requires |p| == 16 && |w1| == |w2| <= 16 && w1 != w2
    ensures Feed(front + w1 + back, p) != Feed(front + w2 + back, p)
  {
    var s := Feed(front, p);
    FeedConcat(front + w1, back, p);
    FeedConcat(front + w2, back, p);
    FeedConcat(front, w1, p);
    FeedConcat(front, w2, p);
    if Feed(back, Feed(w1, s)) == Feed(back, Feed(w2, s)) {
      FeedInjective(back, Feed(w1, s), Feed(w2, s));
      WindowInjective(w1, w2, s);
    }
  }

  /** The same for byte messages: when all differing bits lie in [lo, hi), at most
      16 bits wide, the registers end up different. */
  lemma ByteBurstDetected(m1: seq<bv8>, m2: seq<bv8>, lo: nat, hi: nat, p: Poly)
    requires |p| == 16 && |m1| == |m2| && m1 != m2
    requires lo <= hi <= 8 * |m1| && hi - lo <= 16
    requires MessageBits(m1)[..lo] == MessageBits(m2)[..lo] && MessageBits(m1)[hi..] == MessageBits(m2)[hi..]
    ensures Feed(MessageBits(m1), p) != Feed(MessageBits(m2), p)
  {
    var b1, b2 := MessageBits(m1), MessageBits(m2);
    if b1 == b2 {
      MessageBitsInjective(m1, m2);
    }
    Cut(b1, lo, hi);
    Cut(b2, lo, hi);
    BurstDetected(b1[..lo], b1[lo..hi], b2[lo..hi], b1[hi..], p);
  }

  lemma Cut(b: seq<bool>, lo: nat, hi: nat)
    requires lo <= hi <= |b|
    ensures b == b[..lo] + b[lo..hi] + b[hi..]
  {
  }

  lemma SameMasks(a: bv8, b: bv8)
    requires (a & 1 != 0) == (b & 1 != 0) && (a & 2 != 0) == (b & 2 != 0)
    requires (a & 4 != 0) == (b & 4 != 0) && (a & 8 != 0) == (b & 8 != 0)
    requires (a & 16 != 0) == (b & 16 != 0) && (a & 32 != 0) == (b & 32 != 0)
    requires (a & 64 != 0) == (b & 64 != 0) && (a & 128 != 0) == (b & 128 != 0)
    ensures a == b
  {
  }

  lemma ByteBitsInjective(a: bv8, b: bv8)
    requires ByteBits(a) == ByteBits(b)
    ensures a == b
  {
    var x, y := ByteBits(a), ByteBits(b);
    assert forall i | 0 <= i < 8 :: ByteBit(a, i) == x[i] && ByteBit(b, i) == y[i];
    assert ByteBit(a, 0) == ByteBit(b, 0) && ByteBit(a, 1) == ByteBit(b, 1);
    assert ByteBit(a, 2) == ByteBit(b, 2) && ByteBit(a, 3) == ByteBit(b, 3);
    assert ByteBit(a, 4) == ByteBit(b, 4) && ByteBit(a, 5) == ByteBit(b, 5);
    assert ByteBit(a, 6) == ByteBit(b, 6) && ByteBit(a, 7) == ByteBit(b, 7);
    SameMasks(a, b);
  }

  lemma {:induction false} MessageBitsInjective(m1: seq<bv8>, m2: seq<bv8>)
    requires |m1| == |m2| && MessageBits(m1) == MessageBits(m2)
    ensures m1 == m2
    decreases |m1|
  {
    if m1 != [] {
      var b1, b2 := MessageBits(m1), MessageBits(m2);
      assert ByteBits(m1[0]) == b1[..8] && ByteBits(m2[0]) == b2[..8];
      ByteBitsInjective(m1[0], m2[0]);
      assert MessageBits(m1[1..]) == b1[8..] && MessageBits(m2[1..]) == b2[8..];
      MessageBitsInjective(m1[1..], m2[1..]);
      assert m1 == [m1[0]] + m1[1..] && m2 == [m2[0]] + m2[1..];
    }
  }
}
