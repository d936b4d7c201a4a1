/** The matrix benchmark of CoreMark.  Three N x N matrices share one block of
    memory, given here as an array of 16-bit halves: A and B hold one half per
    element, C two. */
module Matrix {
  import opened Basics
  import Crc

  /** The bits of an ee_s16, and of an ee_s32, as unsigned numbers. */
  type Half = x: int | 0 <= x < 0x10000
  type Full = x: int | 0 <= x < 0x1_0000_0000

  function Signed(h: Half): int { if h < 0x8000 then h else h - 0x10000 }

  function ToFull(x: int): Full { x % 0x1_0000_0000 }

  // ----- rows and columns ---------------------------------------------------------------------------

  lemma InSquare(n: nat, i: nat, j: nat)
    requires i < n && j < n
    ensures 0 <= i * n + j < n * n && i * n + n <= n * n
    ensures (i * n + j) / n == i && (i * n + j) % n == j
  {
    Monotone(n, i + 1, n);
    Monotone(n, 0, i);
    var k := i * n + j;
    DivMod(k, n);
    QuotientUnique(n, k / n, k % n, i, j);
  }

  lemma DivMod(k: nat, n: nat)
    requires n > 0
    ensures k == k / n * n + k % n && 0 <= k % n < n
  {
  }

  // ----- A += val -------------------------------------------------------------------------------------

  function Added(h: Half, val: Half): Half { (h + val) % 0x10000 }

  function Negated(val: Half): Half { (0x10000 - val) % 0x10000 }

  /** The sum differs from the number only by multiples of 2^16 and the added value. */
  lemma AddedDifference(h: Half, val: Half)
    ensures (Added(h, val) - h - val) % 0x10000 == 0
  {
  }

  lemma AddUndone(h: Half, val: Half)
    ensures Added(Added(h, val), Negated(val)) == h
  {
  }

  method AddConst(n: nat, mem: array<Half>, a: nat, val: Half)
    requires a + n * n <= mem.Length
    modifies mem
    ensures forall k | a <= k < a + n * n :: mem[k] == Added(old(mem[k]), val)
    ensures forall k | 0 <= k < mem.Length && !(a <= k < a + n * n) :: mem[k] == old(mem[k])
  {
    hide Added;
    var i := 0;
    while i < n
      invariant i <= n && i * n <= n * n
      invariant forall k | a <= k < a + i * n :: mem[k] == Added(old(mem[k]), val)
      invariant forall k | 0 <= k < mem.Length && !(a <= k < a + i * n) :: mem[k] == old(mem[k])
    {
      var j := 0;
      assert i * n + n <= n * n by { if n > 0 { InSquare(n, i, 0); } }
      while j < n
        invariant j <= n
        invariant forall k | a <= k < a + i * n + j :: mem[k] == Added(old(mem[k]), val)
        invariant forall k | 0 <= k < mem.Length && !(a <= k < a + i * n + j) :: mem[k] == old(mem[k])
      {
        mem[a + (i * n + j)] := Added(mem[a + (i * n + j)], val);
        j := j + 1;
      }
      assert (i + 1) * n == i * n + n;
      i := i + 1;
    }
  }

  // ----- the result matrix -------------------------------------------------------------------------------

  /** Element k of a result matrix at position c: low half first. */
  function At(mem: seq<Half>, c: nat, k: nat): Full
    requires c + 2 * k + 1 < |mem|
  {
    Join(mem[c + 2 * k], mem[c + 2 * k + 1])
  }

  function Join(low: int, high: int): (v: Full)
    requires 0 <= low < 0x10000 && 0 <= high < 0x10000
    ensures v % 0x10000 == low && v / 0x10000 == high
  {
    low + 0x10000 * high
  }

  method Load(mem: array<Half>, c: nat, k: nat) returns (v: Full)
    requires c + 2 * k + 1 < mem.Length
    ensures v == At(mem[..], c, k)
  {
    v := Join(mem[c + 2 * k], mem[c + 2 * k + 1]);
  }

  method Store(mem: array<Half>, c: nat, k: nat, v: Full)
    requires c + 2 * k + 1 < mem.Length
    modifies mem
    ensures At(mem[..], c, k) == v
    ensures forall m | 0 <= m < mem.Length && m != c + 2 * k && m != c + 2 * k + 1 :: mem[m] == old(mem[m])
  {
    mem[c + 2 * k] := v % 0x10000;
    mem[c + 2 * k + 1] := v / 0x10000;
  }

  /** Only the first `count` elements of the matrix at c may differ. */
  ghost predicate OnlyC(before: seq<Half>, after: seq<Half>, c: nat, count: nat) {
    |before| == |after| && forall m | 0 <= m < |before| && !(c <= m < c + 2 * count) :: after[m] == before[m]
  }

  datatype Mode = Multiply | BitExtract

  /** What one pair of elements adds to a result element. */
  function Term(mode: Mode, x: Half, y: Half): Full {
    var p := ToFull(Signed(x) * Signed(y));
    match mode
    case Multiply => p
    case BitExtract => Extract(p)
  }

  /** The four bits from bit 2 on times the seven bits from bit 5 on. */
  function Extract(p: Full): Full { Bounded(p / 4 % 16, p / 32 % 128) }

  function Bounded(a: nat, b: nat): Full
    requires a < 16 && b < 128
  {
    assert a * b <= 15 * 127;
    a * b
  }

  /** Row times column, up to element k, modulo 2^32.  The column is a vector when
      the stride is 1. */
  function Dot(mode: Mode, a: seq<Half>, b: seq<Half>, row: nat, col: nat, stride: nat, k: nat): Full {
    if k == 0 then 0
    else
      var x := if row + k - 1 < |a| then a[row + k - 1] else 0;
      var y := if col + (k - 1) * stride < |b| then b[col + (k - 1) * stride] else 0;
      ToFull(Dot(mode, a, b, row, col, stride, k - 1) + Term(mode, x, y))
  }

  // ----- what the products are ------------------------------------------------------------------------

  /** The signed number of a half: the one in range that is congruent to it. */
  lemma SignedRange(h: Half)
    ensures -0x8000 <= Signed(h) < 0x8000 && (Signed(h) - h) % 0x10000 == 0
  {
  }

  /** Row times column as integers. */
  function InnerProduct(xs: seq<Half>, ys: seq<Half>): int
    requires |xs| == |ys|
  {
    var n := |xs| - 1;
    if xs == [] then 0 else InnerProduct(xs[..n], ys[..n]) + SignedProduct(xs[n], ys[n])
  }

  function SignedProduct(x: Half, y: Half): int { Signed(x) * Signed(y) }

  /** Row times column where each 32-bit product is replaced by the four bits from bit 2
      on times the seven bits from bit 5 on. */
  function BitInnerProduct(xs: seq<Half>, ys: seq<Half>): int
    requires |xs| == |ys|
  {
    var n := |xs| - 1;
    if xs == [] then 0 else BitInnerProduct(xs[..n], ys[..n]) + BitProduct(xs[n], ys[n])
  }

  function BitProduct(x: Half, y: Half): int {
    var p := SignedProduct(x, y) % 0x1_0000_0000;
    Field(p, 2, 4) * Field(p, 5, 7)
  }

  function Column(b: seq<Half>, col: nat, stride: nat, n: nat): (ys: seq<Half>)
    requires forall k | 0 <= k < n :: col + k * stride < |b|
    ensures |ys| == n
  {
    seq(n, k requires 0 <= k < n => b[col + k * stride])
  }

  lemma TermIsProduct(x: Half, y: Half)
    ensures Term(Multiply, x, y) == SignedProduct(x, y) % 0x1_0000_0000
    ensures Term(BitExtract, x, y) == BitProduct(x, y) == BitProduct(x, y) % 0x1_0000_0000
  {
    hide Signed, Field;
    var p := (Signed(x) * Signed(y)) % 0x1_0000_0000;
    FieldIs(p, 2, 4);
    FieldIs(p, 5, 7);
    Powers();
  }

  lemma AddModulo(x: int, y: int)
    ensures ToFull(x % 0x1_0000_0000 + y % 0x1_0000_0000) == (x + y) % 0x1_0000_0000
  {
  }

  /** A result element is row times column, modulo 2^32. */
  lemma {:induction false} DotIsSum(a: seq<Half>, b: seq<Half>, row: nat, col: nat, stride: nat, n: nat)
    requires row + n <= |a| && forall k | 0 <= k < n :: col + k * stride < |b|
    ensures Dot(Multiply, a, b, row, col, stride, n)
      == InnerProduct(a[row..row + n], Column(b, col, stride, n)) % 0x1_0000_0000
    decreases n
  {
    hide Term, SignedProduct, BitProduct, Dot, ToFull, Column;
    var xs, ys := a[row..row + n], Column(b, col, stride, n);
    DotStarts(Multiply, a, b, row, col, stride);
    if n > 0 {
      DotIsSum(a, b, row, col, stride, n - 1);
      assert xs[..n - 1] == a[row..row + (n - 1)];
      ColumnEnd(b, col, stride, n - 1);
      DotStep(Multiply, a, b, row, col, stride, n - 1);
      TermIsProduct(xs[n - 1], ys[n - 1]);
      AddModulo(InnerProduct(xs[..n - 1], ys[..n - 1]), SignedProduct(xs[n - 1], ys[n - 1]));
    }
  }

  /** With bit extraction it is the sum of the products of the two fields. */
  lemma {:induction false} DotIsBitSum(a: seq<Half>, b: seq<Half>, row: nat, col: nat, stride: nat, n: nat)
    requires row + n <= |a| && forall k | 0 <= k < n :: col + k * stride < |b|
    ensures Dot(BitExtract, a, b, row, col, stride, n)
      == BitInnerProduct(a[row..row + n], Column(b, col, stride, n)) % 0x1_0000_0000
    decreases n
  {
    hide Term, SignedProduct, BitProduct, Dot, ToFull, Column;
    var xs, ys := a[row..row + n], Column(b, col, stride, n);
    DotStarts(BitExtract, a, b, row, col, stride);
    if n > 0 {
      DotIsBitSum(a, b, row, col, stride, n - 1);
      assert xs[..n - 1] == a[row..row + (n - 1)];
      ColumnEnd(b, col, stride, n - 1);
      DotStep(BitExtract, a, b, row, col, stride, n - 1);
      TermIsProduct(xs[n - 1], ys[n - 1]);
      AddModulo(BitInnerProduct(xs[..n - 1], ys[..n - 1]), BitProduct(xs[n - 1], ys[n - 1]));
    }
  }

  lemma ColumnEnd(b: seq<Half>, col: nat, stride: nat, n: nat)
    requires forall k | 0 <= k < n + 1 :: col + k * stride < |b|
    ensures Column(b, col, stride, n + 1)[..n] == Column(b, col, stride, n)
    ensures Column(b, col, stride, n + 1)[n] == b[col + n * stride]
  {
  }

  /** A unit vector picks an element, sign-extended. */
  lemma {:induction false} UnitProduct(xs: seq<Half>, ys: seq<Half>, j: nat)
    requires |xs| == |ys| && IsUnitColumn(ys, j)
    ensures InnerProduct(xs, ys) == if j < |xs| then Signed(xs[j]) else 0
    decreases |xs|
  {
    if xs != [] {
      var n := |xs| - 1;
      UnitProduct(xs[..n], ys[..n], j);
    }
  }

  /** C lies behind A and B, inside the block. */
  predicate Layout(n: nat, length: nat, a: nat, b: nat, c: nat) {
    a + n * n <= c && b + n * n <= c && c + 2 * (n * n) <= length
  }

  /** One element of a result: the inner loops over k. */
  method Accumulate(mode: Mode, n: nat, mem: array<Half>, a: nat, b: nat, c: nat, at: nat, row: nat, col: nat,
                    stride: nat)
    requires Layout(n, mem.Length, a, b, c) && at < n * n && row + n <= n * n
    requires forall k | 0 <= k < n :: col + k * stride < n * n
    modifies mem
    ensures At(mem[..], c, at) == Dot(mode, old(mem[a..a + n * n]), old(mem[b..b + n * n]), row, col, stride, n)
    ensures forall m | 0 <= m < mem.Length && m != c + 2 * at && m != c + 2 * at + 1 :: mem[m] == old(mem[m])
  {
    hide Term, At, Dot, ToFull, Join;
    ghost var sa, sb := mem[a..a + n * n], mem[b..b + n * n];
    Store(mem, c, at, 0);
    DotStarts(mode, sa, sb, row, col, stride);
    var k := 0;
    while k < n
      invariant k <= n && At(mem[..], c, at) == Dot(mode, sa, sb, row, col, stride, k)
      invariant forall m | 0 <= m < mem.Length && m != c + 2 * at && m != c + 2 * at + 1 :: mem[m] == old(mem[m])
    {
      var x, y := row + k, col + k * stride;
      assert mem[a + x] == old(mem[a + x]) == sa[x] && mem[b + y] == old(mem[b + y]) == sb[y];
      var tmp: int := Term(mode, mem[a + x], mem[b + y]);
      var cur: int := Load(mem, c, at);
      DotStep(mode, sa, sb, row, col, stride, k);
      Store(mem, c, at, ToFull(cur + tmp));
      k := k + 1;
    }
  }

  lemma DotStarts(mode: Mode, a: seq<Half>, b: seq<Half>, row: nat, col: nat, stride: nat)
    ensures Dot(mode, a, b, row, col, stride, 0) == 0
  {
  }

  lemma DotStep(mode: Mode, a: seq<Half>, b: seq<Half>, row: nat, col: nat, stride: nat, k: nat)
    requires row + k < |a| && col + k * stride < |b|
    ensures Dot(mode, a, b, row, col, stride, k + 1)
      == ToFull(Dot(mode, a, b, row, col, stride, k) + Term(mode, a[row + k], b[col + k * stride]))
  {
  }

  function RowOf(n: nat, k: nat): nat { if n == 0 then 0 else k / n * n }
  function ColumnOf(n: nat, k: nat): nat { if n == 0 then 0 else k % n }

  /** All rows times all columns. */
  function Products(mode: Mode, x: seq<Half>, y: seq<Half>, n: nat): (r: seq<Full>)
    ensures |r| == n * n
  {
    seq(n * n, k requires 0 <= k < n * n => Dot(mode, x, y, RowOf(n, k), ColumnOf(n, k), n, n))
  }

  lemma ProductsAt(mode: Mode, x: seq<Half>, y: seq<Half>, n: nat, i: nat, j: nat)
    requires i < n && j < n
    ensures i * n + j < n * n && Products(mode, x, y, n)[i * n + j] == Dot(mode, x, y, i * n, j, n, n)
  {
    hide Dot;
    InSquare(n, i, j);
  }

  /** The first `count` elements of a result matrix are these. */
  ghost predicate Agrees(p: seq<Full>, mem: seq<Half>, c: nat, count: nat) {
    count <= |p| && c + 2 * count <= |mem| && forall k | 0 <= k < count :: At(mem, c, k) == p[k]
  }

  lemma AgreesStep(p: seq<Full>, prev: seq<Half>, after: seq<Half>, c: nat, at: nat)
    requires Agrees(p, prev, c, at) && at < |p| && |prev| == |after| && c + 2 * |p| <= |prev|
    requires At(after, c, at) == p[at]
    requires forall m | 0 <= m < |prev| && m != c + 2 * at && m != c + 2 * at + 1 :: after[m] == prev[m]
    ensures Agrees(p, after, c, at + 1)
  {
    OtherElements(prev, after, c, at, |p|);
  }

  lemma OnlyCStep(before: seq<Half>, prev: seq<Half>, after: seq<Half>, c: nat, at: nat, count: nat)
    requires OnlyC(before, prev, c, count) && at < count && |prev| == |after|
    requires forall m | 0 <= m < |prev| && m != c + 2 * at && m != c + 2 * at + 1 :: after[m] == prev[m]
    ensures OnlyC(before, after, c, count)
  {
  }

  /** matrix_mul_matrix and matrix_mul_matrix_bitextract, which differ in the term. */
  method MulMatrix(mode: Mode, n: nat, mem: array<Half>, a: nat, b: nat, c: nat)
    requires Layout(n, mem.Length, a, b, c)
    modifies mem
    ensures OnlyC(old(mem[..]), mem[..], c, n * n)
    ensures Agrees(Products(mode, old(mem[a..a + n * n]), old(mem[b..b + n * n]), n), mem[..], c, n * n)
  {
    hide Dot, At, OnlyC, Products, Agrees;
    ghost var before := mem[..];
    ghost var x, y := before[a..a + n * n], before[b..b + n * n];
    ghost var p := Products(mode, x, y, n);
    NothingYet(p, before, c, n * n);
    var i := 0;
    while i < n
      invariant i <= n && i * n <= n * n
      invariant OnlyC(before, mem[..], c, n * n) && Agrees(p, mem[..], c, i * n)
    {
      var j := 0;
      InSquare(n, i, 0);
      while j < n
        invariant j <= n
        invariant OnlyC(before, mem[..], c, n * n) && Agrees(p, mem[..], c, i * n + j)
      {
        InSquare(n, i, j);
        Columns(n, j);
        ghost var prev := mem[..];
        SameMatrices(before, prev, n, a, b, c);
        Accumulate(mode, n, mem, a, b, c, i * n + j, i * n, j, n);
        ProductsAt(mode, x, y, n, i, j);
        AgreesStep(p, prev, mem[..], c, i * n + j);
        OnlyCStep(before, prev, mem[..], c, i * n + j, n * n);
        j := j + 1;
      }
      assert (i + 1) * n == i * n + n;
      i := i + 1;
    }
  }

  lemma NothingYet(p: seq<Full>, m: seq<Half>, c: nat, count: nat)
    requires c <= |m|
    ensures Agrees(p, m, c, 0) && OnlyC(m, m, c, count)
  {
  }

  lemma Columns(n: nat, j: nat)
    requires j < n
    ensures forall k | 0 <= k < n :: j + k * n < n * n
  {
    forall k | 0 <= k < n ensures j + k * n < n * n {
      InSquare(n, k, j);
    }
  }

  lemma OtherElements(before: seq<Half>, after: seq<Half>, c: nat, at: nat, count: nat)
    requires |before| == |after| && c + 2 * count <= |before| && at < count
    requires forall m | 0 <= m < |before| && m != c + 2 * at && m != c + 2 * at + 1 :: after[m] == before[m]
    ensures forall k | 0 <= k < count && k != at :: At(after, c, k) == At(before, c, k)
  {
  }

  /** The element in row i and column j of a product. */
  lemma ProductMeans(x: seq<Half>, y: seq<Half>, n: nat, i: nat, j: nat)
    requires |x| == |y| == n * n && i < n && j < n
    ensures i * n + j < n * n && i * n + n <= n * n && forall k | 0 <= k < n :: j + k * n < n * n
    ensures var xs, ys := x[i * n..i * n + n], Column(y, j, n, n);
      && Products(Multiply, x, y, n)[i * n + j] == InnerProduct(xs, ys) % 0x1_0000_0000
      && Products(BitExtract, x, y, n)[i * n + j] == BitInnerProduct(xs, ys) % 0x1_0000_0000
  {
    hide Dot, InnerProduct, BitInnerProduct, Column, Products;
    InSquare(n, i, j);
    Columns(n, j);
    ProductsAt(Multiply, x, y, n, i, j);
    ProductsAt(BitExtract, x, y, n, i, j);
    DotIsSum(x, y, i * n, j, n, n);
    DotIsBitSum(x, y, i * n, j, n, n);
  }

  /** Multiplying by the unit matrix gives A, sign-extended to 32 bits. */
  lemma TimesUnit(x: seq<Half>, y: seq<Half>, n: nat, i: nat, j: nat)
    requires |x| == |y| == n * n && i < n && j < n
    requires (forall k | 0 <= k < n :: j + k * n < n * n) && IsUnitColumn(Column(y, j, n, n), j)
    ensures i * n + j < n * n
    ensures var h: int := x[i * n + j];
      Products(Multiply, x, y, n)[i * n + j] == if h < 0x8000 then h else 0xffff_0000 + h
  {
    hide InnerProduct, BitInnerProduct, Column, Products;
    ProductMeans(x, y, n, i, j);
    var xs := x[i * n..i * n + n];
    UnitProduct(xs, Column(y, j, n, n), j);
    assert xs[j] == x[i * n + j];
  }

  ghost predicate IsUnitColumn(ys: seq<Half>, j: nat) {
    forall k | 0 <= k < |ys| :: ys[k] == if k == j then 1 else 0
  }

  /** matrix_mul_vect fills the first n elements. */
  method MulVect(n: nat, mem: array<Half>, a: nat, b: nat, c: nat)
    requires Layout(n, mem.Length, a, b, c)
    modifies mem
    ensures OnlyC(old(mem[..]), mem[..], c, n) && n <= n * n
    ensures forall k | 0 <= k < n ::
      At(mem[..], c, k) == Dot(Multiply, old(mem[a..a + n * n]), old(mem[b..b + n * n]), k * n, 0, 1, n)
  {
    hide Dot, At;
    ghost var before := mem[..];
    assert n <= n * n by { if n > 0 { InSquare(n, 0, n - 1); } }
    var i := 0;
    while i < n
      invariant i <= n && OnlyC(before, mem[..], c, n)
      invariant forall k | 0 <= k < i ::
        At(mem[..], c, k) == Dot(Multiply, before[a..a + n * n], before[b..b + n * n], k * n, 0, 1, n)
    {
      InSquare(n, i, 0);
      ghost var prev := mem[..];
      assert mem[a..a + n * n] == before[a..a + n * n] && mem[b..b + n * n] == before[b..b + n * n];
      Accumulate(Multiply, n, mem, a, b, c, i, i * n, 0, 1);
      OtherElements(prev, mem[..], c, i, n);
      i := i + 1;
    }
  }

  /** matrix_mul_const */
  method MulConst(n: nat, mem: array<Half>, a: nat, c: nat, val: Half)
    requires Layout(n, mem.Length, a, a, c)
    modifies mem
    ensures OnlyC(old(mem[..]), mem[..], c, n * n)
    ensures forall k | 0 <= k < n * n :: At(mem[..], c, k) == Term(Multiply, old(mem[a + k]), val)
  {
    hide Term, At;
    ghost var before := mem[..];
    var i := 0;
    while i < n
      invariant i <= n && i * n <= n * n && OnlyC(before, mem[..], c, n * n)
      invariant forall k | 0 <= k < i * n :: At(mem[..], c, k) == Term(Multiply, before[a + k], val)
    {
      var j := 0;
      InSquare(n, i, 0);
      while j < n
        invariant j <= n && OnlyC(before, mem[..], c, n * n)
        invariant forall k | 0 <= k < i * n + j :: At(mem[..], c, k) == Term(Multiply, before[a + k], val)
      {
        InSquare(n, i, j);
        ghost var prev := mem[..];
        var k := i * n + j;
        assert mem[a + k] == before[a + k];
        Store(mem, c, k, Term(Multiply, mem[a + k], val));
        OtherElements(prev, mem[..], c, k, n * n);
        j := j + 1;
      }
      assert (i + 1) * n == i * n + n;
      i := i + 1;
    }
  }

  // ----- the sum over a result matrix ---------------------------------------------------------------------

  /** The bits of an ee_s32 as a signed number, and a number as the bits of an ee_s16. */
  function SignedFull(v: Full): int { if v < 0x8000_0000 then v else v - 0x1_0000_0000 }
  function ToHalf(x: int): Half { x % 0x10000 }

  /** The elements of a result matrix. */
  function Elements(mem: seq<Half>, c: nat, count: nat): (r: seq<Full>)
    requires c + 2 * count <= |mem|
    ensures |r| == count
  {
    seq(count, k requires 0 <= k < count => At(mem, c, k))
  }

  /** The accumulator, the element before, and the result so far. */
  datatype Sum = Sum(tmp: int, prev: int, ret: Half)

  /** While the accumulated value is not above the clip value, an element counts if it
      is greater than the one before; otherwise ten count and accumulation starts again. */
  function SumStep(s: Sum, cur: int, clip: int): Sum {
    var tmp := Wrap32(s.tmp + cur);
    if tmp > clip then Sum(0, cur, ToHalf(s.ret + 10))
    else Sum(tmp, cur, ToHalf(s.ret + if cur > s.prev then 1 else 0))
  }

  function SumOf(c: seq<Full>, clip: int): Sum {
    if c == [] then Sum(0, 0, 0) else SumStep(SumOf(c[..|c| - 1], clip), SignedFull(c[|c| - 1]), clip)
  }

  method MatrixSum(n: nat, mem: array<Half>, c: nat, clip: int) returns (ret: Half)
    requires c + 2 * (n * n) <= mem.Length
    ensures ret == SumOf(Elements(mem[..], c, n * n), clip).ret
  {
    hide At, SignedFull, Elements, SumOf, Wrap32;
    ghost var all := Elements(mem[..], c, n * n);
    ElementsAt(mem[..], c, n * n);
    SumStarts(all, clip);
    var tmp: int, prev: int := 0, 0;
    ret := 0;
    var i := 0;
    while i < n
      invariant i <= n && i * n <= n * n && Sum(tmp, prev, ret) == SumOf(all[..i * n], clip)
    {
      var j := 0;
      InSquare(n, i, 0);
      while j < n
        invariant j <= n && i * n + j <= n * n && Sum(tmp, prev, ret) == SumOf(all[..i * n + j], clip)
      {
        InSquare(n, i, j);
        var k := i * n + j;
        var v := Load(mem, c, k);
        SumNext(all, k, clip);
        var cur := SignedFull(v);
        tmp := Wrap32(tmp + cur);
        if tmp > clip {
          ret := (ret + 10) % 0x10000;
          tmp := 0;
        } else {
          ret := (ret + if cur > prev then 1 else 0) % 0x10000;
        }
        prev := cur;
        j := j + 1;
      }
      assert (i + 1) * n == i * n + n;
      i := i + 1;
    }
    assert all[..n * n] == all;
  }

  lemma SumStarts(all: seq<Full>, clip: int)
    ensures SumOf(all[..0], clip) == Sum(0, 0, 0)
  {
  }

  lemma SumNext(all: seq<Full>, k: nat, clip: int)
    requires k < |all|
    ensures SumOf(all[..k + 1], clip) == SumStep(SumOf(all[..k], clip), SignedFull(all[k]), clip)
  {
    hide SumStep, SignedFull;
    assert all[..k + 1][..k] == all[..k];
  }

  lemma LargeStep(s: Sum, cur: int, clip: int)
    requires s.tmp == 0 && 0 <= cur < 0x8000_0000 && clip < 0
    ensures SumStep(s, cur, clip) == Sum(0, cur, ToHalf(s.ret + 10))
  {
  }

  lemma SmallStep(s: Sum, cur: int, clip: int)
    requires cur <= clip < 0 && -0x8000_0000 <= s.tmp + cur && s.tmp <= 0
    ensures SumStep(s, cur, clip) == Sum(s.tmp + cur, cur, ToHalf(s.ret + if cur > s.prev then 1 else 0))
  {
  }

  lemma HalfStep(x: int, d: int)
    ensures ToHalf(x % 0x10000 + d) == (x + d) % 0x10000
  {
  }

  /** Where no element is negative, every one exceeds the negative clip value: ten each. */
  lemma {:induction false} SumOfLarge(c: seq<Full>, clip: int)
    requires clip < 0 && forall k | 0 <= k < |c| :: c[k] < 0x8000_0000
    ensures SumOf(c, clip).ret == 10 * |c| % 0x10000 && SumOf(c, clip).tmp == 0
    decreases |c|
  {
    hide SumStep, ToHalf;
    if c != [] {
      var init := c[..|c| - 1];
      SumOfLarge(init, clip);
      LargeStep(SumOf(init, clip), SignedFull(c[|c| - 1]), clip);
      HalfStep(10 * |init|, 10);
    }
  }

  function Total(c: seq<Full>): int {
    if c == [] then 0 else Total(c[..|c| - 1]) + SignedFull(c[|c| - 1])
  }

  /** The elements that are greater than the one before. */
  function Rises(c: seq<Full>): nat {
    if |c| <= 1 then 0
    else Rises(c[..|c| - 1]) + if SignedFull(c[|c| - 1]) > SignedFull(c[|c| - 2]) then 1 else 0
  }

  /** Where every element stays below the clip value and the total does not overflow,
      the rises are counted. */
  lemma {:induction false} SumOfSmall(c: seq<Full>, clip: int)
    requires clip < 0 && Total(c) >= -0x8000_0000 && forall k | 0 <= k < |c| :: SignedFull(c[k]) <= clip
    ensures var s := SumOf(c, clip);
      s.ret == Rises(c) % 0x10000 && s.tmp == Total(c) <= 0 && s.prev == (if c == [] then 0 else SignedFull(c[|c| - 1]))
    decreases |c|
  {
    hide SumStep, ToHalf, SignedFull;
    if c != [] {
      var init, cur := c[..|c| - 1], SignedFull(c[|c| - 1]);
      SumOfSmall(init, clip);
      var s := SumOf(init, clip);
      SmallStep(s, cur, clip);
      HalfStep(Rises(init), if cur > s.prev then 1 else 0);
    }
  }

  lemma SignedFullRange(v: Full)
    ensures -0x8000_0000 <= SignedFull(v) < 0x8000_0000 && (SignedFull(v) - v) % 0x1_0000_0000 == 0
  {
  }

  /** The clip value is negative, small, and ends in the twelve low bits of val. */
  lemma ClipRange(val: Half)
    ensures -0x1000 <= Clip(val) < 0 && (Clip(val) - val) % 0x1000 == 0
  {
  }

  // ----- the results of matrix_test ---------------------------------------------------------------------------

  /** C after each of the four multiplications, for the memory m that holds A and B. */
  function ConstProduct(m: seq<Half>, n: nat, a: nat, val: Half): (r: seq<Full>)
    requires a + n * n <= |m|
    ensures |r| == n * n
  {
    seq<Full>(n * n, k requires 0 <= k < n * n => Term(Multiply, m[a + k], val))
  }

  /** A times the vector in B. */
  function VectorPart(m: seq<Half>, n: nat, a: nat, b: nat): (r: seq<Full>)
    requires a + n * n <= |m| && b + n * n <= |m|
    ensures |r| == n
  {
    seq<Full>(n, k requires 0 <= k < n => Dot(Multiply, m[a..a + n * n], m[b..b + n * n], k * n, 0, 1, n))
  }

  /** The vector, and behind it what the product with the constant has left. */
  function VectProduct(m: seq<Half>, n: nat, a: nat, b: nat, val: Half): seq<Full>
    requires a + n * n <= |m| && b + n * n <= |m|
  {
    VectorPart(m, n, a, b) + ConstProduct(m, n, a, val)[Min(n, n * n)..]
  }

  function MatrixProduct(mode: Mode, m: seq<Half>, n: nat, a: nat, b: nat): (r: seq<Full>)
    requires a + n * n <= |m| && b + n * n <= |m|
    ensures |r| == n * n
  {
    Products(mode, m[a..a + n * n], m[b..b + n * n], n)
  }

  /** The value that a result matrix contributes to the checksum, as two bytes. */
  function SumBytes(c: seq<Full>, clip: int): seq<bv8> { Crc.WordBytes(SumOf(c, clip).ret as bv16) }

  /** matrix_big: the four highest bits set, as a signed number. */
  function Clip(val: Half): int { val % 0x1000 - 0x1000 }

  /** Adds the sum over the result matrix to the checksum. */
  method SumUp(n: nat, mem: array<Half>, c: nat, val: Half, crc0: bv16) returns (crc: bv16)
    requires c + 2 * (n * n) <= mem.Length
    ensures Crc.After(SumBytes(Elements(mem[..], c, n * n), Clip(val)), crc0, crc)
  {
    hide Crc.After, Crc.WordBytes, SumOf, Clip, Elements;
    var sum := MatrixSum(n, mem, c, Clip(val));
    crc := Crc.Crcu16(sum as bv16, crc0);
  }

  /** matrix_test: A and B come back unchanged, for every value and whatever wraps
      around, because nothing but C is written in between; C ends up as the bit
      extract product of A + val and B; and the result is the checksum of the sums over
      C after each of the four multiplications. */
  method MatrixTest(n: nat, mem: array<Half>, a: nat, b: nat, c: nat, val: Half) returns (crc: bv16)
    requires Layout(n, mem.Length, a, b, c) && (a + n * n <= b || b + n * n <= a)
    modifies mem
    ensures OnlyC(old(mem[..]), mem[..], c, n * n)
    ensures Elements(mem[..], c, n * n) == MatrixProduct(BitExtract, Shifted(old(mem[..]), n, a, val), n, a, b)
    ensures var m := Shifted(old(mem[..]), n, a, val);
      Crc.After(SumBytes(ConstProduct(m, n, a, val), Clip(val)) + SumBytes(VectProduct(m, n, a, b, val), Clip(val))
                + SumBytes(MatrixProduct(Multiply, m, n, a, b), Clip(val))
                + SumBytes(MatrixProduct(BitExtract, m, n, a, b), Clip(val)), 0, crc)
  {
    hide Crc.After, Crc.WordBytes, SumBytes, Agrees, Products, At, Elements, ConstProduct, VectProduct, MatrixProduct;
    hide OnlyC, VectorPart;
    ghost var m0 := mem[..];
    AddConst(n, mem, a, val);
    ghost var m1 := mem[..];
    assert m1 == Shifted(m0, n, a, val);
    MulConst(n, mem, a, c, val);
    ghost var m2 := mem[..];
    IsConstProduct(m1, m2, n, a, c, val);
    var c1 := SumUp(n, mem, c, val, 0);
    MulVect(n, mem, a, b, c);
    ghost var m3 := mem[..];
    IsVectorPart(m2, m3, n, a, b, c);
    IsVectProduct(m1, m2, m3, n, a, b, c, val);
    var c2 := SumUp(n, mem, c, val, c1);
    MulMatrix(Multiply, n, mem, a, b, c);
    ghost var m4 := mem[..];
    IsMatrixProduct(Multiply, m1, m3, m4, n, a, b, c);
    var c3 := SumUp(n, mem, c, val, c2);
    MulMatrix(BitExtract, n, mem, a, b, c);
    ghost var m5 := mem[..];
    IsMatrixProduct(BitExtract, m1, m4, m5, n, a, b, c);
    crc := SumUp(n, mem, c, val, c3);
    FourSums(SumBytes(ConstProduct(m1, n, a, val), Clip(val)), SumBytes(VectProduct(m1, n, a, b, val), Clip(val)),
             SumBytes(MatrixProduct(Multiply, m1, n, a, b), Clip(val)),
             SumBytes(MatrixProduct(BitExtract, m1, n, a, b), Clip(val)), c1, c2, c3, crc);
    AddConst(n, mem, a, Negated(val));
    AddedBack(m0, m1, m5, mem[..], n, a, c, val);
  }

  lemma IsConstProduct(m1: seq<Half>, m2: seq<Half>, n: nat, a: nat, c: nat, val: Half)
    requires a + n * n <= |m1| && OnlyC(m1, m2, c, n * n) && c + 2 * (n * n) <= |m1|
    requires forall k | 0 <= k < n * n :: At(m2, c, k) == Term(Multiply, m1[a + k], val)
    ensures Elements(m2, c, n * n) == ConstProduct(m1, n, a, val)
  {
    hide At, Term;
  }

  lemma IsVectProduct(m1: seq<Half>, m2: seq<Half>, m3: seq<Half>, n: nat, a: nat, b: nat, c: nat, val: Half)
    requires Layout(n, |m1|, a, b, c) && n <= n * n && OnlyC(m1, m2, c, n * n) && OnlyC(m2, m3, c, n)
    requires Elements(m2, c, n * n) == ConstProduct(m1, n, a, val)
    requires Elements(m3, c, n) == VectorPart(m2, n, a, b)
    ensures Elements(m3, c, n * n) == VectProduct(m1, n, a, b, val) && OnlyC(m1, m3, c, n * n)
  {
    hide At, Dot, Term, OnlyC, Elements, ConstProduct;
    Widen(m1, m2, m3, c, n, n * n);
    SameMatrices(m1, m2, n, a, b, c);
    ElementsReplaced(m2, m3, c, n, n * n);
  }

  lemma IsVectorPart(before: seq<Half>, after: seq<Half>, n: nat, a: nat, b: nat, c: nat)
    requires Layout(n, |before|, a, b, c) && n <= n * n && |after| == |before|
    requires forall k | 0 <= k < n ::
      At(after, c, k) == Dot(Multiply, before[a..a + n * n], before[b..b + n * n], k * n, 0, 1, n)
    ensures Elements(after, c, n) == VectorPart(before, n, a, b)
  {
    hide At, Dot;
  }

  /** Only the first elements of a result matrix change. */
  lemma ElementsReplaced(x: seq<Half>, y: seq<Half>, c: nat, few: nat, many: nat)
    requires few <= many && c + 2 * many <= |x| && OnlyC(x, y, c, few)
    ensures Elements(y, c, many) == Elements(y, c, few) + Elements(x, c, many)[few..]
  {
    hide At;
    forall k | few <= k < many ensures At(x, c, k) == At(y, c, k) {
      AtBehind(x, y, c, few, k);
    }
  }

  /** The memory with val added to every element of A, and to nothing else. */
  lemma ShiftedDifference(mem: seq<Half>, n: nat, a: nat, val: Half, k: nat)
    requires k < |mem|
    ensures if a <= k < a + n * n then (Shifted(mem, n, a, val)[k] - mem[k] - val) % 0x10000 == 0
      else Shifted(mem, n, a, val)[k] == mem[k]
  {
    hide Added;
    AddedDifference(mem[k], val);
  }

  lemma Widen(x: seq<Half>, y: seq<Half>, z: seq<Half>, c: nat, few: nat, many: nat)
    requires few <= many && OnlyC(x, y, c, many) && OnlyC(y, z, c, few)
    ensures OnlyC(x, z, c, many) && |x| == |y| == |z|
  {
  }

  lemma ElementsAt(m: seq<Half>, c: nat, count: nat)
    requires c + 2 * count <= |m|
    ensures forall k | 0 <= k < count :: Elements(m, c, count)[k] == At(m, c, k)
  {
  }

  lemma AtBehind(x: seq<Half>, y: seq<Half>, c: nat, n: nat, k: nat)
    requires OnlyC(x, y, c, n) && n <= k && c + 2 * k + 1 < |x|
    ensures At(x, c, k) == At(y, c, k)
  {
  }

  /** A and B lie outside C. */
  lemma SameMatrices(x: seq<Half>, y: seq<Half>, n: nat, a: nat, b: nat, c: nat)
    requires Layout(n, |x|, a, b, c) && OnlyC(x, y, c, n * n)
    ensures x[a..a + n * n] == y[a..a + n * n] && x[b..b + n * n] == y[b..b + n * n]
  {
  }

  lemma IsMatrixProduct(mode: Mode, m1: seq<Half>, before: seq<Half>, after: seq<Half>, n: nat, a: nat, b: nat, c: nat)
    requires Layout(n, |m1|, a, b, c) && OnlyC(m1, before, c, n * n) && OnlyC(before, after, c, n * n)
    requires Agrees(Products(mode, before[a..a + n * n], before[b..b + n * n], n), after, c, n * n)
    ensures Elements(after, c, n * n) == MatrixProduct(mode, m1, n, a, b) && OnlyC(m1, after, c, n * n)
  {
    hide At, Dot, Products;
    SameMatrices(m1, before, n, a, b, c);
  }

  lemma FourSums(s1: seq<bv8>, s2: seq<bv8>, s3: seq<bv8>, s4: seq<bv8>, c1: bv16, c2: bv16, c3: bv16, crc: bv16)
    requires Crc.After(s1, 0, c1) && Crc.After(s2, c1, c2) && Crc.After(s3, c2, c3) && Crc.After(s4, c3, crc)
    ensures Crc.After(s1 + s2 + s3 + s4, 0, crc)
  {
    hide Crc.After;
    Crc.AfterBoth(s1, s2, 0, c1, c2);
    Crc.AfterBoth(s1 + s2, s3, 0, c2, c3);
    Crc.AfterBoth(s1 + s2 + s3, s4, 0, c3, crc);
  }

  /** Subtracting val again restores A, and nothing else has moved but C. */
  lemma AddedBack(m0: seq<Half>, m1: seq<Half>, m5: seq<Half>, m6: seq<Half>, n: nat, a: nat, c: nat, val: Half)
    requires |m0| == |m6| && a + n * n <= c && c + 2 * (n * n) <= |m0|
    requires m1 == Shifted(m0, n, a, val) && OnlyC(m1, m5, c, n * n)
    requires forall k | a <= k < a + n * n :: m6[k] == Added(m5[k], Negated(val))
    requires forall k | 0 <= k < |m6| && !(a <= k < a + n * n) :: m6[k] == m5[k]
    ensures OnlyC(m0, m6, c, n * n) && Elements(m6, c, n * n) == Elements(m5, c, n * n)
  {
    hide Added, Negated, At;
    forall k | 0 <= k < |m0| && !(c <= k < c + 2 * (n * n)) ensures m6[k] == m0[k] {
      assert m5[k] == m1[k];
      AddUndone(m0[k], val);
    }
    SameElements(m5, m6, c, n * n);
  }

  function Shifted(mem: seq<Half>, n: nat, a: nat, val: Half): (r: seq<Half>)
    ensures |r| == |mem|
  {
    seq(|mem|, k requires 0 <= k < |mem| => if a <= k < a + n * n then Added(mem[k], val) else mem[k])
  }

  lemma SameElements(x: seq<Half>, y: seq<Half>, c: nat, count: nat)
    requires |x| == |y| && c + 2 * count <= |x| && forall k | c <= k < c + 2 * count :: x[k] == y[k]
    ensures forall k | 0 <= k < count :: At(x, c, k) == At(y, c, k)
  {
  }

  // ----- initialisation -----------------------------------------------------------------------------------

  /** align_mem: the next multiple of 4. */
  function AlignMem(addr: nat): nat
    requires addr > 0
  {
    4 + (addr - 1) / 4 * 4
  }

  /** The distance to the next multiple of 4. */
  function Padding(addr: nat): nat { (4 - addr % 4) % 4 }

  lemma Aligned(addr: nat, k: nat)
    requires addr > 0
    ensures var a := AlignMem(addr);
      && a % 4 == 0 && a == addr + Padding(addr) < addr + 4 && (addr % 4 == 0 ==> a == addr)
      && AlignMem(a + 2 * k + 2 * k) == a + 4 * k && (a + 4 * k) % 4 == 0
  {
  }

  /** The largest dimension whose three matrices take fewer bytes than the block. */
  method Dimension(blksize: nat) returns (n: nat)
    requires blksize > 0
    ensures 8 * (n * n) < blksize <= 8 * ((n + 1) * (n + 1))
  {
    var i, j := 0, 0;
    while j < blksize
      invariant 0 <= i <= j && j == i * i * 2 * 4
      invariant i == 0 || (i - 1) * (i - 1) * 8 < blksize
      decreases blksize - i
    {
      i := i + 1;
      assert i * i >= i;
      j := i * i * 2 * 4;
    }
    n := i - 1;
  }

  /** The % of C, which rounds towards zero. */
  function TruncatedMod(x: int, m: nat): int
    requires m > 0
  {
    if x >= 0 then x % m else -((-x) % m)
  }

  /** The pseudo-random seed of the k-th element, counted from 1. */
  function SeedAt(seed: int, k: nat): int {
    if k == 0 then seed else NextSeed(SeedAt(seed, k - 1), k)
  }

  function NextSeed(seed: int, order: int): int { TruncatedMod(Wrap32(order * seed), 0x10000) }

  function BValue(seed: int, k: nat): Half { (SeedAt(seed, k + 1) + (k + 1)) % 0x10000 }

  function AValue(seed: int, k: nat): (h: Half)
    ensures h < 256
  {
    (BValue(seed, k) + (k + 1)) % 256
  }

  /** The first `count` elements of A and of B have their values, and nothing
      behind the two matrices has changed. */
  ghost predicate FilledUpTo(before: seq<Half>, mem: seq<Half>, size: nat, seed: int, count: nat)
    requires count <= size && 2 * size <= |mem|
  {
    && (forall k | 0 <= k < count :: mem[k] == AValue(seed, k) && mem[size + k] == BValue(seed, k))
    && |before| == |mem| && forall k | 2 * size <= k < |mem| :: mem[k] == before[k]
  }

  lemma FillStep(before: seq<Half>, mem: seq<Half>, size: nat, seed: int, at: nat)
    requires at < size && 2 * size <= |mem| && FilledUpTo(before, mem, size, seed, at)
    ensures FilledUpTo(before, mem[size + at := BValue(seed, at)][at := AValue(seed, at)], size, seed, at + 1)
  {
    hide AValue, BValue;
  }

  /** Fills one element of B and of A; its number is one more than its place. */
  method FillElement(size: nat, at: nat, ghost seed0: int, seed: int, order: int, mem: array<Half>,
                     ghost before: seq<Half>)
    returns (next: int)
    requires at < size && 2 * size <= mem.Length && seed == SeedAt(seed0, at) && order == at + 1
    requires FilledUpTo(before, mem[..], size, seed0, at)
    modifies mem
    ensures next == SeedAt(seed0, at + 1) && FilledUpTo(before, mem[..], size, seed0, at + 1)
  {
    hide AValue, BValue, SeedAt, FilledUpTo;
    ElementValues(seed0, at);
    FillStep(before, mem[..], size, seed0, at);
    next := TruncatedMod(Wrap32(order * seed), 0x10000);
    var val := next + order;
    mem[size + at] := val % 0x10000;
    val := val % 0x10000 + order;
    mem[at] := val % 0x100;
  }

  /** Fills A and B element by element. */
  method Fill(n: nat, seed0: int, mem: array<Half>)
    requires 2 * (n * n) <= mem.Length
    modifies mem
    ensures FilledUpTo(old(mem[..]), mem[..], n * n, seed0, n * n)
  {
    hide AValue, BValue, SeedAt, NextSeed, FilledUpTo;
    ghost var before := mem[..];
    SeedStarts(seed0);
    NothingFilled(before, n * n, seed0);
    var seed, order: int := seed0, 1;
    var i := 0;
    while i < n
      invariant i <= n && i * n <= n * n && order == i * n + 1 && seed == SeedAt(seed0, i * n)
      invariant FilledUpTo(before, mem[..], n * n, seed0, i * n)
    {
      var j := 0;
      InSquare(n, i, 0);
      while j < n
        invariant j <= n && order == i * n + j + 1 && seed == SeedAt(seed0, i * n + j)
        invariant FilledUpTo(before, mem[..], n * n, seed0, i * n + j)
      {
        assert i * n + j < n * n by { InSquare(n, i, j); }
        seed := FillElement(n * n, i * n + j, seed0, seed, order, mem, before);
        order := order + 1;
        j := j + 1;
      }
      assert (i + 1) * n == i * n + n;
      i := i + 1;
    }
  }

  lemma NothingFilled(mem: seq<Half>, size: nat, seed: int)
    requires 2 * size <= |mem|
    ensures FilledUpTo(mem, mem, size, seed, 0)
  {
  }

  lemma SeedStarts(seed: int)
    ensures SeedAt(seed, 0) == seed
  {
  }

  lemma ElementValues(seed: int, k: nat)
    ensures SeedAt(seed, k + 1) == NextSeed(SeedAt(seed, k), k + 1)
    ensures BValue(seed, k) == (SeedAt(seed, k + 1) + (k + 1)) % 0x10000
    ensures AValue(seed, k) == ((SeedAt(seed, k + 1) + (k + 1)) % 0x10000 + (k + 1)) % 0x100
  {
  }

  function Factorial(k: nat): nat { if k == 0 then 1 else k * Factorial(k - 1) }

  lemma Congruent(x: int, y: int, k: int)
    requires x % 0x10000 == y % 0x10000
    ensures (k * x) % 0x10000 == (k * y) % 0x10000
  {
    var q := x / 0x10000 - y / 0x10000;
    assert x == y + q * 0x10000;
    assert k * x == k * y + (k * q) * 0x10000;
    Multiples(k * y, k * q);
  }

  lemma Multiples(x: int, q: int)
    ensures (x + q * 0x10000) % 0x10000 == x % 0x10000
  {
  }

  lemma NextSeedCongruent(seed: int, order: int)
    ensures NextSeed(seed, order) % 0x10000 == (order * seed) % 0x10000
  {
    hide Wrap32, TruncatedMod;
    WrapCongruent(order * seed);
    TruncatedCongruent(Wrap32(order * seed));
  }

  lemma WrapCongruent(x: int)
    ensures Wrap32(x) % 0x10000 == x % 0x10000
  {
    var q := (x + 0x8000_0000) / 0x1_0000_0000;
    assert Wrap32(x) == x + (-q * 0x10000) * 0x10000;
    Multiples(x, -q * 0x10000);
  }

  lemma TruncatedCongruent(y: int)
    ensures TruncatedMod(y, 0x10000) % 0x10000 == y % 0x10000
  {
    if y < 0 {
      var q := (-y) / 0x10000;
      assert TruncatedMod(y, 0x10000) == y + q * 0x10000;
      Multiples(y, q);
    }
  }

  /** The pseudo-random sequence in closed form: seed times k factorial. */
  lemma {:induction false} SeedClosed(seed: int, k: nat)
    ensures SeedAt(seed, k) % 0x10000 == (Factorial(k) * seed) % 0x10000
    decreases k
  {
    hide NextSeed;
    if k > 0 {
      SeedClosed(seed, k - 1);
      NextSeedCongruent(SeedAt(seed, k - 1), k);
      Congruent(SeedAt(seed, k - 1), Factorial(k - 1) * seed, k);
      assert k * (Factorial(k - 1) * seed) == Factorial(k) * seed;
    }
  }

  /** So are the elements of B and A. */
  lemma ValuesClosed(seed: int, k: nat)
    ensures BValue(seed, k) == (Factorial(k + 1) * seed + (k + 1)) % 0x10000
    ensures AValue(seed, k) == (Factorial(k + 1) * seed + 2 * (k + 1)) % 0x100
  {
    hide SeedAt, Factorial;
    SeedClosed(seed, k + 1);
    var x, y := SeedAt(seed, k + 1), Factorial(k + 1) * seed;
    SameSum(x, y, k + 1);
    LowByteOf(y + (k + 1), k + 1);
  }

  lemma SameSum(x: int, y: int, d: int)
    requires x % 0x10000 == y % 0x10000
    ensures (x + d) % 0x10000 == (y + d) % 0x10000
  {
  }

  lemma LowByteOf(x: int, d: int)
    ensures (x % 0x10000 + d) % 0x100 == (x + d) % 0x100
  {
  }

  /** Dimension and byte addresses. */
  datatype MatParams = MatParams(N: nat, A: nat, B: nat, C: nat)

  /** core_init_matrix: the largest N that fits, and A, B and C side by side, aligned,
      with their seeded values.  `mem` is the memory from A on.  In an aligned block the
      three matrices fit; otherwise they start up to 3 bytes late, and fit exactly when
      so many bytes are left. */
  method InitMatrix(blksize: nat, memblk: nat, seed0: int, mem: array<Half>) returns (p: MatParams)
    requires blksize > 0 && memblk > 0 && blksize <= 2 * mem.Length
    modifies mem
    ensures 8 * (p.N * p.N) < blksize <= 8 * ((p.N + 1) * (p.N + 1))
    ensures memblk <= p.A < memblk + 4 && p.A % 4 == 0
    ensures p.B == p.A + 2 * (p.N * p.N) && p.C == p.B + 2 * (p.N * p.N) && p.C % 4 == 0
    ensures memblk % 4 == 0 ==> p.C + 4 * (p.N * p.N) < memblk + blksize
    ensures p.C + 4 * (p.N * p.N) <= memblk + blksize <==> 8 * (p.N * p.N) + Padding(memblk) <= blksize
    ensures p.C + 4 * (p.N * p.N) <= memblk + blksize + 2
    ensures Layout(p.N, mem.Length, 0, p.N * p.N, 2 * (p.N * p.N))
    ensures var seed := if seed0 == 0 then 1 else seed0;
      forall k | 0 <= k < p.N * p.N :: mem[k] == AValue(seed, k) && mem[p.N * p.N + k] == BValue(seed, k)
  {
    hide AValue, BValue, AlignMem, Padding, FilledUpTo;
    var seed := if seed0 == 0 then 1 else seed0;
    var n := Dimension(blksize);
    var a := AlignMem(memblk);
    var b := a + 2 * (n * n);
    Aligned(memblk, n * n);
    Fill(n, seed, mem);
    AllFilled(old(mem[..]), mem[..], n * n, seed);
    p := MatParams(n, a, b, AlignMem(b + 2 * (n * n)));
  }

  lemma AllFilled(before: seq<Half>, mem: seq<Half>, size: nat, seed: int)
    requires 2 * size <= |mem| && FilledUpTo(before, mem, size, seed, size)
    ensures forall k | 0 <= k < size :: mem[k] == AValue(seed, k) && mem[size + k] == BValue(seed, k)
  {
  }

  /** A block of 9 bytes at address 1 is overrun by the full 2 bytes. */
  method BlockOverrun(seed: int, mem: array<Half>) returns (p: MatParams)
    requires mem.Length >= 5
    modifies mem
    ensures p.N == 1 && p.C + 4 * (p.N * p.N) == 1 + 9 + 2
  {
    hide AValue, BValue;
    p := InitMatrix(9, 1, seed, mem);
    OneByOne(p.N);
  }

  lemma OneByOne(n: nat)
    requires 8 * (n * n) < 9 <= 8 * ((n + 1) * (n + 1))
    ensures n == 1
  {
    if n >= 2 {
      Monotone(n, 2, n);
    }
  }
}
