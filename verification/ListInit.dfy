/** core_list_init: the list is built inside one memory block, whose first part
    holds the list cells and whose second part holds the data cells. */
module ListInit {
  import opened Basics
  import opened SortOrder
  import opened ListSort
  import opened ListBench

  const HEAD_BYTES := 8   // a list_head on a 32-bit target: two pointers
  const DATA_BYTES := 4   // a list_data: two 16-bit numbers
  const PER_ITEM := 20    // 16 + sizeof(struct list_data_s)

  /** The number of cells of each kind that the block is cut into. */
  function Capacity(blksize: nat): int { blksize / PER_ITEM - 2 }

  // Byte offsets of the cells inside the block.
  function HeadOffset(k: nat): nat { k * HEAD_BYTES }
  function DataOffset(size: nat, k: nat): nat { size * HEAD_BYTES + k * DATA_BYTES }

  /** All cells lie inside the block, and no two of them overlap. */
  lemma CellsFit(blksize: nat, size: nat, j: nat, k: nat)
    requires size == Capacity(blksize) && j < size && k < size
    ensures HeadOffset(j) + HEAD_BYTES <= DataOffset(size, k)
    ensures DataOffset(size, k) + DATA_BYTES <= blksize
    ensures j < k ==> HeadOffset(j) + HEAD_BYTES <= HeadOffset(k)
    ensures j < k ==> DataOffset(size, j) + DATA_BYTES <= DataOffset(size, k)
  {
  }

  /** The memory block: `size` list cells and `size` data cells. */
  ghost predicate Arena(heads: seq<ListHead>, datas: seq<ListData>) {
    |heads| == |datas| && Distinct(heads) && Distinct(datas)
  }

  /** The list of the first n cells: the dummy head, then the others, last one first. */
  function Order(heads: seq<ListHead>, n: nat): (s: seq<ListHead>)
    requires 1 <= n <= |heads|
    ensures |s| == n
  {
    seq(n, j requires 0 <= j < n => if j == 0 then heads[0] else heads[n - j])
  }

  lemma OrderDistinct(heads: seq<ListHead>, n: nat)
    requires 1 <= n <= |heads| && Distinct(heads)
    ensures Distinct(Order(heads, n))
    ensures forall k | 0 <= k < n :: heads[k] in Order(heads, n)
    ensures forall c | c in Order(heads, n) :: c in heads[..n]
    ensures forall j | 0 <= j < n :: Order(heads, n)[j] in heads
  {
    var s := Order(heads, n);
    forall k | 0 <= k < n ensures heads[k] in s {
      assert s[if k == 0 then 0 else n - k] == heads[k];
    }
    forall c | c in s ensures c in heads[..n] {
      var j :| 0 <= j < n && s[j] == c;
      assert c == heads[..n][if j == 0 then 0 else n - j];
    }
  }

  /** The first n cells are linked and each has its own data cell. */
  ghost predicate Built(heads: seq<ListHead>, datas: seq<ListData>, n: nat)
    reads heads
  {
    && Arena(heads, datas) && 1 <= n <= |heads|
    && IsList(heads[0], Order(heads, n))
    && forall k | 0 <= k < n :: heads[k].info == datas[k]
  }

  /** The low byte is a copy of the high byte. */
  predicate Even(d: Word) { Low(d) == High(d) }

  /** The contents of the data cells in use: dummy head, dummy tail, items. */
  ghost predicate Filled(datas: seq<ListData>, seed: Word, n: nat)
    reads datas
  {
    && 1 <= n <= |datas|
    && (forall k | 2 <= k < n :: datas[k].data16 == Pattern(seed, k - 2))
    && ItemOf(datas[0]) == Item(0x8080, 0) && (n >= 2 ==> ItemOf(datas[1]) == Item(0xffff, 0x7fff))
  }

  /** The list with a cell linked in behind position k. */
  function Inserted(s: seq<ListHead>, k: nat, c: ListHead): (r: seq<ListHead>)
    requires k < |s|
    ensures |r| == |s| + 1
  {
    s[..k + 1] + [c] + s[k + 1..]
  }

  lemma InsertedDistinct(s: seq<ListHead>, k: nat, c: ListHead)
    requires k < |s| && Distinct(s) && c !in s
    ensures Distinct(Inserted(s, k, c))
    ensures forall x | x in Inserted(s, k, c) :: x == c || x in s
  {
  }

  /** core_list_insert_new, for any insertion point in a list of used cells.  The two
      free pointers are the indices of the next free cells. */
  method InsertNew(point: ListHead, data16: Word, idx: Short, mem: nat, dat: nat,
                   heads: seq<ListHead>, datas: seq<ListData>, ghost list: ListHead, ghost s: seq<ListHead>,
                   ghost k: nat)
    returns (item: ListHead?, mem': nat, dat': nat)
    requires Arena(heads, datas) && mem == dat <= |heads|
    requires IsList(list, s) && k < |s| && point == s[k] && (forall c | c in s :: c in heads[..mem])
    requires forall j | 0 <= j < mem :: heads[j].info == datas[j]
    modifies heads, datas
    ensures item == null <==> mem + 1 >= |heads|
    ensures item == null ==> mem' == mem && unchanged(heads) && unchanged(datas)
    ensures item != null ==>
      && mem' == mem + 1 && item == heads[mem] && ItemOf(datas[mem]) == Item(data16, idx)
      && IsList(list, Inserted(s, k, item)) && (forall c | c in Inserted(s, k, item) :: c in heads[..mem'])
    ensures dat' == mem' && forall j | 0 <= j < mem' :: heads[j].info == datas[j]
    ensures forall j | 0 <= j < |datas| && j != mem :: ItemOf(datas[j]) == old(ItemOf(datas[j]))
  {
    item, mem', dat' := null, mem, dat;
    if mem + 1 >= |heads| || dat + 1 >= |datas| {
      return;
    }
    FreeCell(heads, mem, s);
    ghost var t := Inserted(s, k, heads[mem]);
    InsertedDistinct(s, k, heads[mem]);
    assert NextIs(s, k);
    item := heads[mem];
    mem' := mem + 1;
    item.next := point.next;
    point.next := item;
    item.info := datas[dat];
    dat' := dat + 1;
    item.info.data16 := data16;
    item.info.idx := idx;
    forall j | 0 <= j < |t| ensures NextIs(t, j) {
      if j < k {
        assert t[j] == s[j] && old(NextIs(s, j));
      } else if j > k + 1 {
        assert t[j] == s[j - 1] && old(NextIs(s, j - 1));
      }
    }
    assert heads[..mem'] == heads[..mem] + [heads[mem]];
  }

  lemma FreeCell(heads: seq<ListHead>, n: nat, s: seq<ListHead>)
    requires n < |heads| && Distinct(heads) && forall c | c in s :: c in heads[..n]
    ensures heads[n] !in s && forall j | 0 <= j < |s| :: s[j] in heads && s[j] != heads[n]
  {
    forall j | 0 <= j < |s| ensures s[j] in heads && s[j] != heads[n] {
      assert s[j] in heads[..n];
      var i :| 0 <= i < n && heads[..n][i] == s[j];
      assert heads[i] == s[j];
    }
  }

  /** Inserting behind the dummy head keeps the order of the block. */
  lemma OrderInserts(heads: seq<ListHead>, n: nat)
    requires 1 <= n < |heads|
    ensures Inserted(Order(heads, n), 0, heads[n]) == Order(heads, n + 1)
  {
  }

  // ----- the values -------------------------------------------------------------------------

  /** The same value in both bytes. */
  function Twice(dat: nat): (d: Word)
    requires dat < 256
    ensures Low(d) == High(d) == dat
  {
    dat * 256 + dat
  }

  /** The data of item i: four seeded bits and three counter bits, in both bytes. */
  function Pattern(seed: Word, i: nat): (d: Word)
    ensures Low(d) == High(d)
  {
    Powers();
    Twice(Xor(seed, i, 4) * 8 + i % 8)
  }

  /** The pattern with the three lowest counter bits set from bit 8 on, cut to 14 bits. */
  function Mixed(i: nat, pat: nat): (idx: Short)
    ensures 0 <= idx < 0x4000
  {
    Powers();
    Or(i % 8 * 256, pat, 14)
  }

  /** Assignment of a number to an ee_s16. */
  function ToShort(i: nat): Short { (i + 0x8000) % 0x10000 - 0x8000 }

  /** The index written by the indexing loop when its counter is i. */
  function IndexOf(size: nat, seed: Word, i: nat): (idx: Short)
    ensures i < size / 5 <= 0x8000 ==> idx == i
    ensures i >= size / 5 ==> 0 <= idx < 0x4000
  {
    if i < size / 5 then ToShort(i)
    else Mixed(i + 1, Xor(i, seed, 16))
  }

  /** The fields of an item: the operation from the counter, its argument from seed and
      counter, nothing cached, and all of it once more in the high byte. */
  lemma PatternFields(seed: Word, i: nat)
    ensures var d := Pattern(seed, i);
      && d % 8 == i % 8 && d / 128 % 2 == 0 && d / 256 == d % 256
      && forall k | 0 <= k < 4 :: BitOf(d / 8 % 16, k) == if BitOf(seed, k) == BitOf(i, k) then 0 else 1
  {
    hide Twice, Xor, BitOf;
    Powers();
    TwiceFields(Xor(seed, i, 4), i % 8);
    forall k | 0 <= k < 4 ensures BitOf(Xor(seed, i, 4), k) == if BitOf(seed, k) == BitOf(i, k) then 0 else 1 {
      XorBit(seed, i, 4, k);
    }
  }

  lemma TwiceFields(p: nat, q: nat)
    requires p < 16 && q < 8
    ensures var d := Twice(p * 8 + q); d % 8 == q && d / 8 % 16 == p && d / 128 % 2 == 0 && d / 256 == d % 256
  {
    var d, x: int := Twice(p * 8 + q), p * 8 + q;
    Digits(d, 8, 257 * p + 32 * q, q);
    Digits(257 * p + 32 * q, 16, 16 * p + 2 * q, p);
    Digits(d, 128, 2 * x, x);
    Digits(2 * x, 2, x, 0);
    Digits(d, 256, x, x);
  }

  lemma Digits(d: nat, m: nat, q: nat, r: nat)
    requires d == q * m + r && r < m
    ensures d / m == q && d % m == r
  {
    QuotientUnique(m, d / m, d % m, q, r);
  }

  /** The index of an item behind the first fifth: bit by bit the seeded counter, with the
      lowest bits of the next counter value over its bits 8 to 10. */
  lemma IndexBits(size: nat, seed: Word, i: nat, k: nat)
    requires i >= size / 5 && k < 14
    ensures BitOf(IndexOf(size, seed, i), k)
      == if BitOf(i, k) != BitOf(seed, k) || (8 <= k < 11 && BitOf(i + 1, k - 8) == 1) then 1 else 0
  {
    hide Or, Xor, BitOf;
    Powers();
    OrBit((i + 1) % 8 * 256, Xor(i, seed, 16), 14, k);
    XorBit(i, seed, 16, k);
    BitUp((i + 1) % 8, k, 8);
    if k >= 8 {
      BitCut(i + 1, k - 8, 3);
    }
  }

  /** The items after the first fifth may have any index up to 0x3fff, so they
      can tie with the dummy head: only the stability of the sort keeps the dummy
      head in front. */
  lemma MixedMayTie()
    ensures IndexOf(40, 15, 15) == 0
  {
    SameBits(15, 16);
    NoBits(14);
  }

  // ----- core_list_init --------------------------------------------------------------------

  /** Creates the dummy head and tail and inserts items until the block is full. */
  method Populate(size: nat, seed: Word, heads: seq<ListHead>, datas: seq<ListData>) returns (list: ListHead)
    requires Arena(heads, datas) && |heads| == size >= 3
    modifies heads, datas
    ensures list == heads[0] && Built(heads, datas, size - 1) && Filled(datas, seed, size - 1)
  {
    hide Built, Pattern, Low, High, Distinct;
    list := heads[0];
    list.next := null;
    list.info := datas[0];
    list.info.idx := 0x0000;
    list.info.data16 := 0x8080;
    JustHead(heads, datas);
    var mem, dat := InsertFirst(list, 0xffff, 0x7fff, 1, 1, heads, datas);
    for i := 0 to size
      invariant Built(heads, datas, mem) && Filled(datas, seed, mem) && dat == mem
      invariant mem == if i + 2 < size - 1 then i + 2 else size - 1
    {
      mem, dat := InsertFirst(list, Pattern(seed, i), 0x7fff, mem, dat, heads, datas);
    }
  }

  /** Inserts behind the dummy head while there is room. */
  method InsertFirst(list: ListHead, data16: Word, idx: Short, mem: nat, dat: nat, heads: seq<ListHead>,
                     datas: seq<ListData>)
    returns (mem': nat, dat': nat)
    requires Built(heads, datas, mem) && list == heads[0] && dat == mem
    modifies heads, datas
    ensures mem' == (if mem + 1 >= |heads| then mem else mem + 1) && dat' == mem' && Built(heads, datas, mem')
    ensures mem' > mem ==> ItemOf(datas[mem]) == Item(data16, idx)
    ensures forall j | 0 <= j < |datas| && j != mem :: ItemOf(datas[j]) == old(ItemOf(datas[j]))
    ensures mem' == mem ==> unchanged(datas)
  {
    hide Order, IsList, Distinct;
    var item;
    OrderOnList(heads, mem);
    if mem < |heads| {
      OrderInserts(heads, mem);
    }
    item, mem', dat' := InsertNew(list, data16, idx, mem, dat, heads, datas, list, Order(heads, mem), 0);
  }

  lemma OrderOnList(heads: seq<ListHead>, n: nat)
    requires 1 <= n <= |heads| && Distinct(heads)
    ensures Order(heads, n)[0] == heads[0] && forall c | c in Order(heads, n) :: c in heads[..n]
  {
    OrderDistinct(heads, n);
  }

  lemma PatternEven(seed: Word, i: nat)
    ensures Even(Pattern(seed, i)) && Even(0x8080) && Even(0xffff)
  {
  }

  lemma JustHead(heads: seq<ListHead>, datas: seq<ListData>)
    requires Arena(heads, datas) && |heads| >= 1 && heads[0].next == null && heads[0].info == datas[0]
    ensures Built(heads, datas, 1)
  {
  }

  /** Gives every cell between the dummies its index, in list order. */
  method Index(list: ListHead, size: nat, seed: Word, heads: seq<ListHead>, datas: seq<ListData>)
    requires |heads| == size >= 3
    requires list == heads[0] && Built(heads, datas, size - 1) && Filled(datas, seed, size - 1)
    modifies datas`idx
    ensures Built(heads, datas, size - 1) && Filled(datas, seed, size - 1)
    ensures forall k | 2 <= k < size - 1 :: datas[k].idx == IndexOf(size, seed, size - 1 - k)
  {
    hide IndexOf, Pattern, Order;
    ghost var s, n := Order(heads, size - 1), size - 1;
    OrderAt(heads, n);
    assert NextIs(s, 0);
    var finder := list.next;
    var i := 1;
    assert finder == s[1];
    while NotLast(finder, s, i)
      invariant 1 <= i < n && finder == s[i]
      invariant Filled(datas, seed, n) && IsList(list, s) && forall k | 0 <= k < n :: heads[k].info == datas[k]
      invariant forall k | n - i < k < n :: datas[k].idx == IndexOf(size, seed, n - k)
      decreases n - i
    {
      assert NextIs(s, i);
      finder.info.idx := IndexOf(size, seed, i);
      i := i + 1;
      finder := finder.next;
    }
  }

  lemma OrderAt(heads: seq<ListHead>, n: nat)
    requires 1 <= n <= |heads|
    ensures forall i | 1 <= i < n :: Order(heads, n)[i] == heads[n - i]
    ensures Order(heads, n)[0] == heads[0]
  {
  }

  /** Another cell follows. */
  function NotLast(finder: ListHead, ghost s: seq<ListHead>, ghost i: nat): (b: bool)
    requires i < |s| && finder == s[i] && IsList(First(s), s)
    reads finder, s
    ensures b <==> i + 1 < |s|
  {
    assert NextIs(s, i);
    finder.next != null
  }

  /** core_list_init: exactly size - 1 cells of the block form the list, each with
      its own data cell; sorted by index, the dummy tail last, and the dummy head first
      exactly when no index has wrapped around; and every item is already regenerated. */
  method ListInit(blksize: nat, seed: Word, heads: seq<ListHead>, datas: seq<ListData>)
    returns (list: ListHead, ghost s: seq<ListHead>, ghost info: map<ListHead, ListData>, ghost v: map<ListHead, Item>)
    requires |heads| == Capacity(blksize) >= 3 && Arena(heads, datas)
    modifies heads, datas
    ensures IsList(list, s) && Holds(s, info, Cells(datas), v)
    ensures |s| == Capacity(blksize) - 1 && forall c | c in s :: c in heads[..|s|]
    ensures s[|s| - 1] == heads[1] && (list == heads[0] <==> Capacity(blksize) / 5 <= 0x8000)
    ensures CellContents(v, heads, Capacity(blksize), seed)
    ensures Original(v, s) && forall i, j | 0 <= i < j < |s| :: v[s[i]].idx <= v[s[j]].idx
  {
    hide IsList, Order, StablySorted, Extends, IndexOf, Original, Built, Filled, Holds, CellContents;
    var size := blksize / PER_ITEM - 2;
    list := Populate(size, seed, heads, datas);
    Index(list, size, seed, heads, datas);
    ghost var n, ds := size - 1, Cells(datas);
    ghost var t := Order(heads, n);
    ghost var v0;
    info, v0 := Contents(heads, datas, size, seed);
    OrderDistinct(heads, n);
    list, s, v := Mergesort(list, CmpIdx, null, t, info, ds, v0);
    OneList(list, s);
    SortedDummies(v0, v, t, s, heads, size, seed);
  }

  function Cells(datas: seq<ListData>): set<ListData> { set d | d in datas }

  /** Describes the list before it is sorted. */
  lemma Contents(heads: seq<ListHead>, datas: seq<ListData>, size: nat, seed: Word)
    returns (info: map<ListHead, ListData>, v: map<ListHead, Item>)
    requires |heads| == size >= 3 && Built(heads, datas, size - 1) && Filled(datas, seed, size - 1)
    requires forall k | 2 <= k < size - 1 :: datas[k].idx == IndexOf(size, seed, size - 1 - k)
    ensures Holds(Order(heads, size - 1), info, Cells(datas), v)
    ensures IsList(heads[0], Order(heads, size - 1))
    ensures CellContents(v, heads, size, seed)
  {
    hide IsList, Pattern, IndexOf, CellContents, Holds, Order;
    var n := size - 1;
    info := map c | c in heads[..n] :: c.info;
    v := map c | c in heads[..n] :: ItemOf(c.info);
    ReadContents(heads, datas, size, seed, v);
    InOrder(heads, datas, n, info, v);
  }

  lemma ReadContents(heads: seq<ListHead>, datas: seq<ListData>, size: nat, seed: Word, v: map<ListHead, Item>)
    requires |heads| == size >= 3 && Built(heads, datas, size - 1) && Filled(datas, seed, size - 1)
    requires forall k | 2 <= k < size - 1 :: datas[k].idx == IndexOf(size, seed, size - 1 - k)
    requires forall c | c in heads[..size - 1] :: c in v && v[c] == ItemOf(c.info)
    ensures CellContents(v, heads, size, seed)
  {
    hide IsList, Pattern, IndexOf, Order;
    forall k | 0 <= k < size - 1 ensures heads[k] in v && v[heads[k]] == ItemOf(datas[k]) {
      assert heads[..size - 1][k] == heads[k] && heads[k].info == datas[k];
    }
  }

  lemma InOrder(heads: seq<ListHead>, datas: seq<ListData>, n: nat, info: map<ListHead, ListData>,
                v: map<ListHead, Item>)
    requires Built(heads, datas, n)
    requires forall c | c in heads[..n] :: c in info && c in v && info[c] == c.info && v[c] == ItemOf(c.info)
    ensures Holds(Order(heads, n), info, Cells(datas), v)
  {
    hide IsList;
    var s := Order(heads, n);
    OrderDistinct(heads, n);
    forall c | c in s ensures exists k :: 0 <= k < n && heads[k] == c && c.info == datas[k] {
      var k :| 0 <= k < n && heads[..n][k] == c;
      assert heads[k] == c;
    }
  }

  /** What every cell of the block holds: dummy head, dummy tail, and the items. */
  ghost predicate CellContents(v: map<ListHead, Item>, heads: seq<ListHead>, size: nat, seed: Word) {
    && 3 <= size <= |heads| && Distinct(heads)
    && (forall k | 0 <= k < size - 1 :: heads[k] in v)
    && v[heads[0]] == Item(0x8080, 0) && v[heads[1]] == Item(0xffff, 0x7fff)
    && forall k | 2 <= k < size - 1 :: v[heads[k]] == Item(Pattern(seed, k - 2), IndexOf(size, seed, size - 1 - k))
  }

  lemma ContentsBounds(v: map<ListHead, Item>, heads: seq<ListHead>, size: nat, seed: Word)
    requires CellContents(v, heads, size, seed)
    ensures forall k | 0 <= k < size - 1 :: heads[k] in v && Settled(ByIdx(true), v[heads[k]].data16)
    ensures v[heads[0]].idx == 0 && v[heads[1]].idx == 0x7fff
    ensures size / 5 <= 0x8000 ==> forall k | 0 <= k < size - 1 :: 0 <= v[heads[k]].idx
    ensures size / 5 > 0x8000 ==> v[heads[size - 1 - 0x8000]].idx == -0x8000
  {
    hide Pattern, IndexOf;
    forall k | 0 <= k < size - 1 ensures Settled(ByIdx(true), v[heads[k]].data16) {
      PatternEven(seed, if k < 2 then 0 else k - 2);
    }
    forall k | 2 <= k < size - 1 ensures size / 5 <= 0x8000 ==> 0 <= v[heads[k]].idx {
      assert v[heads[k]].idx == IndexOf(size, seed, size - 1 - k);
    }
    WrapsAt(size, seed);
  }

  lemma WrapsAt(size: nat, seed: Word)
    ensures size / 5 > 0x8000 ==> IndexOf(size, seed, 0x8000) == -0x8000
  {
  }

  /** Sorting by index changes no item that is already regenerated. */
  lemma ItemsUnmoved(v0: map<ListHead, Item>, v: map<ListHead, Item>, t: seq<ListHead>, s: seq<ListHead>,
                     heads: seq<ListHead>, n: nat)
    requires 1 <= n <= |heads| && Distinct(heads) && t == Order(heads, n)
    requires forall k | 0 <= k < n :: heads[k] in v0 && Settled(ByIdx(true), v0[heads[k]].data16)
    requires Extends(ByIdx(true), v0, v) && StablySorted(ByIdx(true), v, t, s)
    ensures |s| == n && forall c | c in s :: c in heads[..n] && c in v0 && c in v && v[c] == v0[c]
  {
    hide Settled, Order, Key;
    OrderDistinct(heads, n);
    forall c | c in s ensures c in heads[..n] && c in v0 && c in v && v[c] == v0[c] {
      assert c in t;
      var k :| 0 <= k < n && heads[..n][k] == c;
      assert heads[k] == c;
      SettledStays(v0[c], v[c]);
    }
  }

  lemma SettledStays(it: Item, after: Item)
    requires Settled(ByIdx(true), it.data16) && Updated(ByIdx(true), it, after)
    ensures it == after
  {
  }

  lemma KeysAscend(v: map<ListHead, Item>, t: seq<ListHead>, s: seq<ListHead>)
    requires StablySorted(ByIdx(true), v, t, s)
    ensures forall i, j | 0 <= i < j < |s| :: s[i] in v && s[j] in v && v[s[i]].idx <= v[s[j]].idx
  {
    forall i, j | 0 <= i < j < |s| ensures s[i] in v && s[j] in v && v[s[i]].idx <= v[s[j]].idx {
      assert Key(ByIdx(true), v[s[i]]) <= Key(ByIdx(true), v[s[j]]);
    }
  }

  /** Sorting keeps the dummy tail last, and the dummy head first unless an index has
      wrapped around.  Both need the sort to be stable, because other cells may have
      the same indices. */
  lemma SortedDummies(v0: map<ListHead, Item>, v: map<ListHead, Item>, t: seq<ListHead>, s: seq<ListHead>,
                      heads: seq<ListHead>, size: nat, seed: Word)
    requires 3 <= size <= |heads| && Distinct(heads) && CellContents(v0, heads, size, seed)
    requires t == Order(heads, size - 1)
    requires Extends(ByIdx(true), v0, v) && StablySorted(ByIdx(true), v, t, s)
    ensures |s| == size - 1 && forall c | c in s :: c in heads[..size - 1] && c in v && v[c] == v0[c]
    ensures s[|s| - 1] == heads[1] && CellContents(v, heads, size, seed)
    ensures s[0] == heads[0] <==> size / 5 <= 0x8000
    ensures Original(v, s) && forall i, j | 0 <= i < j < |s| :: v[s[i]].idx <= v[s[j]].idx
  {
    hide CellContents, StablySorted, Extends, SameCells, Distinct, Order;
    var n := size - 1;
    ContentsBounds(v0, heads, size, seed);
    ItemsUnmoved(v0, v, t, s, heads, n);
    SortedSame(ByIdx(true), v, t, s);
    ContentsKept(v0, v, heads, size, seed, t, s);
    ContentsBounds(v, heads, size, seed);
    KeysAscend(v, t, s);
    AllInBlock(s, heads, n);
    OrderEnds(heads, n);
    TailLast(v, t, s);
    if size / 5 <= 0x8000 {
      HeadFirst(v, t, s);
    } else {
      OrderDistinct(heads, n);
      InSorted(t, s, heads[n - 0x8000]);
      LeastFirst(v, s, heads[n - 0x8000]);
    }
  }

  lemma AllInBlock(s: seq<ListHead>, heads: seq<ListHead>, n: nat)
    requires n <= |heads| && forall c | c in s :: c in heads[..n]
    ensures forall c | c in s :: exists k :: 0 <= k < n && heads[k] == c
  {
    forall c | c in s ensures exists k :: 0 <= k < n && heads[k] == c {
      var k :| 0 <= k < n && heads[..n][k] == c;
      assert heads[k] == c;
    }
  }

  lemma LeastFirst(v: map<ListHead, Item>, s: seq<ListHead>, c: ListHead)
    requires c in s && (forall x | x in s :: x in v)
    requires forall i, j | 0 <= i < j < |s| :: v[s[i]].idx <= v[s[j]].idx
    ensures v[s[0]].idx <= v[c].idx
  {
    var i :| 0 <= i < |s| && s[i] == c;
  }

  lemma OrderEnds(heads: seq<ListHead>, n: nat)
    requires 2 <= n <= |heads|
    ensures Order(heads, n)[0] == heads[0] && Order(heads, n)[n - 1] == heads[1]
  {
  }

  lemma InSorted(t: seq<ListHead>, s: seq<ListHead>, c: ListHead)
    requires SameCells(t, s) && c in t
    ensures c in s
  {
  }

  /** A last cell with the greatest index stays last. */
  lemma TailLast(v: map<ListHead, Item>, t: seq<ListHead>, s: seq<ListHead>)
    requires StablySorted(ByIdx(true), v, t, s) && t != [] && t[|t| - 1] in v
    requires forall c | c in s :: c in v && v[c].idx <= v[t[|t| - 1]].idx
    ensures s[|s| - 1] == t[|t| - 1]
  {
    var n := |t| - 1;
    assert t[n] in s && s[n] in t;
    var i :| 0 <= i < |s| && s[i] == t[n];
    var a :| 0 <= a < |t| && t[a] == s[n];
  }

  lemma ContentsKept(v0: map<ListHead, Item>, v: map<ListHead, Item>, heads: seq<ListHead>, size: nat, seed: Word,
                     t: seq<ListHead>, s: seq<ListHead>)
    requires 3 <= size <= |heads| && CellContents(v0, heads, size, seed) && t == Order(heads, size - 1)
    requires SameCells(t, s)
    requires forall c | c in s :: c in v && v[c] == v0[c]
    ensures CellContents(v, heads, size, seed)
  {
    hide Pattern, IndexOf;
    OrderDistinct(heads, size - 1);
    forall k | 0 <= k < size - 1 ensures heads[k] in v && v[heads[k]] == v0[heads[k]] {
      assert heads[k] in t;
    }
  }

  /** A first cell with the least index stays first. */
  lemma HeadFirst(v: map<ListHead, Item>, t: seq<ListHead>, s: seq<ListHead>)
    requires StablySorted(ByIdx(true), v, t, s) && t != [] && t[0] in v
    requires forall c | c in s :: c in v && v[t[0]].idx <= v[c].idx
    ensures s[0] == t[0]
  {
    assert t[0] in s && s[0] in t;
    var i :| 0 <= i < |s| && s[i] == t[0];
    var a :| 0 <= a < |t| && t[a] == s[0];
  }

  // ----- a list that the benchmark does not restore ------------------------------------------------

  /** In the list of 39 cells with seed 15 an item has the index of the dummy head. */
  lemma InitTies(v: map<ListHead, Item>, heads: seq<ListHead>, s: seq<ListHead>)
    requires CellContents(v, heads, 40, 15) && |s| == 39 && Distinct(s) && forall c | c in s :: c in heads[..39]
    ensures !Ascending(v, s)
  {
    hide Pattern, IndexOf, Distinct;
    MixedMayTie();
    assert v[heads[24]].idx == v[heads[0]].idx;
    Everywhere(heads, s, 39, 0);
    Everywhere(heads, s, 39, 24);
    var i :| 0 <= i < |s| && s[i] == heads[0];
    var j :| 0 <= j < |s| && s[j] == heads[24];
    assert heads[0] != heads[24] by { Apart(heads, 0, 24); }
    assert v[s[i]].idx == v[s[j]].idx;
  }

  lemma Apart(heads: seq<ListHead>, i: nat, j: nat)
    requires i < j < |heads| && Distinct(heads)
    ensures heads[i] != heads[j]
  {
  }

  /** As many different cells as there are: all of them. */
  lemma Everywhere(heads: seq<ListHead>, s: seq<ListHead>, n: nat, k: nat)
    requires |s| == n <= |heads| && Distinct(heads) && Distinct(s) && (forall c | c in s :: c in heads[..n]) && k < n
    ensures heads[k] in s
  {
    AllOut(heads[..n], s);
    assert heads[..n][k] == heads[k];
  }

  /** With seed 15 the argument of an even item is odd. */
  lemma NoZeroByte(i: nat)
    ensures Low(Pattern(15, i)) != 0
  {
    Powers();
    var x := Xor(15, i, 4);
    assert x == (1 + i % 2) % 2 + 2 * Xor(7, i / 2, 3);
    assert Low(Pattern(15, i)) == x * 8 + i % 8;
    if i % 8 == 0 {
      assert i % 2 == 0;
    }
  }

  /** No item has a low byte of 0, so a search for 0 finds nothing. */
  lemma ZeroIsMissed(v: map<ListHead, Item>, heads: seq<ListHead>, s: seq<ListHead>)
    requires CellContents(v, heads, 40, 15) && (forall c | c in s :: c in v && c in heads[..39])
    ensures FirstMatch(s, v, -1, 0) == |s|
  {
    hide Pattern, IndexOf, FirstMatch;
    forall j | 0 <= j < |s| ensures !Matches(v[s[j]], -1, 0) {
      assert s[j] in heads[..39];
      var k :| 0 <= k < 39 && heads[..39][k] == s[j];
      assert heads[k] == s[j];
      if k >= 2 {
        NoZeroByte(k - 2);
      }
    }
  }

  /** core_list_init on 840 bytes with seed 15, then the benchmark with one search and
      a finder index of -1: the list does not come back in its original order. */
  method BenchLosesOrder(heads: seq<ListHead>, datas: seq<ListData>, benchmark: (nat, nat, nat, bv16) -> Word)
    returns (ghost before: seq<ListHead>, ghost after: seq<ListHead>, ghost list: ListHead)
    requires |heads| == 40 && Arena(heads, datas)
    modifies heads, datas
    ensures IsList(list, after) && SameCells(before, after) && before != after && before[0] == heads[0]
  {
    hide IsList, Holds, CellContents, Original, Performed, FirstMatch, Ascending, Distinct, SameCells;
    var first;
    ghost var info, v, w;
    first, before, info, v := ListInit(840, 15, heads, datas);
    OneList(first, before);
    HeldHuntable(before, info, Cells(datas), v);
    var res := new CoreResults(first, 1, benchmark);
    InBlock(before, heads);
    InData(datas);
    var retval;
    retval, list, after, w := BenchList(res, -1, 0, before, info, Cells(datas), v);
    InitTies(v, heads, before);
    ZeroIsMissed(v, heads, before);
    ghost var s2, v1, mid :| Performed(before, v, 1, -1, 0, s2, v1, mid, after, w, retval);
    OneMissedSearch(before, v, -1, 0, s2, v1, mid, after, w, retval);
  }

  lemma InBlock(s: seq<ListHead>, heads: seq<ListHead>)
    requires |s| <= |heads| && forall c | c in s :: c in heads[..|s|]
    ensures forall j | 0 <= j < |s| :: s[j] in heads
  {
    forall j | 0 <= j < |s| ensures s[j] in heads {
      assert s[j] in heads[..|s|];
    }
  }

  lemma InData(datas: seq<ListData>)
    ensures forall d | d in Cells(datas) :: d in datas
  {
  }
}
