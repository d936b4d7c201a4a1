/** The list operations of CoreMark and its list benchmark, which shuffles, sorts
    and edits the list and promises to leave it as it was. */
module ListBench {
  import opened SortOrder
  import opened ListSort
  import Crc

  // ----- find ------------------------------------------------------------------------

  /** By index if the index asked for is not negative, else by the low data byte. */
  predicate Matches(it: Item, idx: Short, data: Word) {
    if idx >= 0 then it.idx == idx else Low(it.data16) == data
  }

  method Find(list: ListHead?, idx: Short, data: Word, ghost s: seq<ListHead>) returns (r: ListHead?, ghost k: nat)
    requires IsList(list, s)
    ensures k <= |s| && r == (if k < |s| then s[k] else null)
    ensures idx >= 0 ==> (k < |s| ==> s[k].info.idx == idx) && forall i | 0 <= i < k :: s[i].info.idx != idx
    ensures idx < 0 ==>
      (k < |s| ==> s[k].info.data16 % 256 == data) && forall i | 0 <= i < k :: s[i].info.data16 % 256 != data
    ensures k < |s| ==> Matches(ItemOf(s[k].info), idx, data)
    ensures forall i | 0 <= i < k :: !Matches(ItemOf(s[i].info), idx, data)
  {
    r, k := list, 0;
    while r != null && !Matches(ItemOf(r.info), idx, data)
      invariant k <= |s| && r == (if k < |s| then s[k] else null)
      invariant forall i | 0 <= i < k :: !Matches(ItemOf(s[i].info), idx, data)
      decreases |s| - k
    {
      assert NextIs(s, k);
      r, k := r.next, k + 1;
    }
  }

  // ----- reverse ----------------------------------------------------------------------

  function Reversed<T>(s: seq<T>): (r: seq<T>)
    ensures |r| == |s|
  {
    seq(|s|, i requires 0 <= i < |s| => s[|s| - 1 - i])
  }

  ghost predicate PrevIs(s: seq<ListHead>, k: nat)
    requires k < |s|
    reads s
  {
    s[k].next == if k > 0 then s[k - 1] else null
  }

  method Reverse(list0: ListHead?, ghost s: seq<ListHead>,
                 ghost info: map<ListHead, ListData>, ghost ds: set<ListData>, ghost v: map<ListHead, Item>)
    returns (next: ListHead?)
    requires IsList(list0, s) && Holds(s, info, ds, v)
    modifies s`next
    ensures IsList(next, Reversed(s)) && Holds(Reversed(s), info, ds, v)
  {
    var list := list0;
    ghost var i := 0;
    next := null;
    while list != null
      invariant i <= |s| && list == (if i < |s| then s[i] else null) && next == (if i > 0 then s[i - 1] else null)
      invariant forall k {:trigger PrevIs(s, k)} | 0 <= k < i :: PrevIs(s, k)
      invariant forall k {:trigger NextIs(s, k)} | i <= k < |s| :: NextIs(s, k)
      decreases |s| - i
    {
      assert NextIs(s, i);
      label before:
      var tmp := list.next;
      list.next := next;
      next := list;
      list := tmp;
      forall k | i < k < |s| ensures NextIs(s, k) {
        assert old@before(NextIs(s, k));
      }
      forall k | 0 <= k < i ensures PrevIs(s, k) {
        assert old@before(PrevIs(s, k));
      }
      i := i + 1;
    }
    ghost var t := Reversed(s);
    forall k | 0 <= k < |t| ensures NextIs(t, k) {
      assert PrevIs(s, |s| - 1 - k);
    }
    assert Holds(s, info, ds, v);
    ReversedSame(s);
    HoldsSame(s, t, info, ds, v);
  }

  // ----- move to front ------------------------------------------------------------------

  /** The cell behind position i moved to the second place. */
  function MovedUp<T>(s: seq<T>, i: nat): (r: seq<T>)
    requires i < |s|
    ensures |r| == |s|
  {
    if i == 0 || i + 1 == |s| then s else [s[0], s[i + 1]] + s[1..i + 1] + s[i + 2..]
  }

  /** "Cache next item at the head of the list (if any)". */
  method MoveUp(list: ListHead, thisFind: ListHead, ghost s: seq<ListHead>, ghost i: nat)
    requires IsList(list, s) && i < |s| && thisFind == s[i]
    modifies s`next
    ensures IsList(list, MovedUp(s, i))
  {
    assert NextIs(s, i);
    if thisFind.next != null {
      var finder := thisFind.next;
      assert NextIs(s, i + 1) && NextIs(s, 0);
      thisFind.next := finder.next;
      finder.next := list.next;
      list.next := finder;
      ghost var t := MovedUp(s, i);
      forall k | 0 <= k < |t| ensures NextIs(t, k) {
        assert old(NextIs(s, k));
        assert k > 0 ==> old(NextIs(s, k - 1));
      }
      MovedUpDistinct(s, i);
    }
  }

  lemma HoldsSame(s: seq<ListHead>, t: seq<ListHead>, info: map<ListHead, ListData>, ds: set<ListData>,
                  v: map<ListHead, Item>)
    requires SameCells(s, t) && Holds(s, info, ds, v)
    ensures Holds(t, info, ds, v)
  {
  }

  lemma MovedUpDistinct<T>(s: seq<T>, i: nat)
    requires i < |s| && Distinct(s)
    ensures SameCells(s, MovedUp(s, i))
  {
    var t := MovedUp(s, i);
    if i > 0 && i + 1 < |s| {
      assert forall k | 2 <= k < i + 2 :: t[k] == s[k - 1];
      assert forall k | i + 2 <= k < |s| :: t[k] == s[k];
      forall x | x in s ensures x in t {
        var k :| 0 <= k < |s| && s[k] == x;
        assert x == if k == 0 then t[0] else if k <= i then t[k + 1] else if k == i + 1 then t[1] else t[k];
      }
    }
  }

  lemma ReversedSame<T>(s: seq<T>)
    requires Distinct(s)
    ensures SameCells(s, Reversed(s))
  {
    var t := Reversed(s);
    forall x | x in s ensures x in t {
      var k :| 0 <= k < |s| && s[k] == x;
      assert t[|s| - 1 - k] == x;
    }
  }

  // ----- remove and undo -----------------------------------------------------------------

  /** The list without the cell behind position i. */
  function WithoutNext<T>(s: seq<T>, i: nat): (r: seq<T>)
    requires i + 1 < |s|
    ensures |r| == |s| - 1
  {
    s[..i + 1] + s[i + 2..]
  }

  /** Removes the item at `item` by pulling the next item into its cell and
      unlinking the next cell. */
  method Remove(list: ListHead, item: ListHead, ghost s: seq<ListHead>, ghost i: nat) returns (ret: ListHead)
    requires IsList(list, s) && i + 1 < |s| && item == s[i]
    modifies s[i], s[i + 1]
    ensures ret == s[i + 1] && ret.next == null
    ensures IsList(list, WithoutNext(s, i))
    ensures item.info == old(s[i + 1].info) && ret.info == old(s[i].info)
  {
    assert NextIs(s, i) && NextIs(s, i + 1);
    ret := item.next;
    var tmp := item.info;
    item.info := ret.info;
    ret.info := tmp;
    item.next := item.next.next;
    ret.next := null;
    ghost var t := WithoutNext(s, i);
    forall k | 0 <= k < |t| ensures NextIs(t, k) {
      assert old(NextIs(s, k)) && old(NextIs(s, k + 1));
    }
  }

  /** Undoes a remove: links the removed cell back behind the modified one and
      swaps the items back. */
  method UndoRemove(removed: ListHead, modified: ListHead, list: ListHead, ghost s: seq<ListHead>, ghost i: nat)
    returns (item: ListHead)
    requires i + 1 < |s| && Distinct(s) && removed == s[i + 1] && modified == s[i]
    requires IsList(list, WithoutNext(s, i))
    modifies s[i], s[i + 1]
    ensures item == removed && IsList(list, s)
    ensures s[i].info == old(s[i + 1].info) && s[i + 1].info == old(s[i].info)
  {
    ghost var t := WithoutNext(s, i);
    assert NextIs(t, i);
    var tmp := removed.info;
    removed.info := modified.info;
    modified.info := tmp;
    removed.next := modified.next;
    modified.next := removed;
    item := removed;
    forall k | 0 <= k < |s| ensures NextIs(s, k) {
      if k < i {
        assert old(NextIs(t, k));
      } else if k > i + 1 {
        assert old(NextIs(t, k - 1));
      }
    }
  }

  // ----- the benchmark -------------------------------------------------------------------

  function Wrap(x: int): Word { x % 0x10000 }

  /** idx++ on an ee_s16 that is not negative. */
  function Increment(idx: Short): Short {
    if idx < 0 then idx else if idx == 0x7fff then -0x8000 else idx + 1
  }

  function FromBits(b: bv16): (w: Word)
    ensures Bits(w) == b
  {
    b as int
  }

  /** n copies of the bytes of d. */
  function Copies(d: Word, n: nat): seq<bv8> {
    if n == 0 then [] else Crc.WordBytes(Bits(d)) + Copies(d, n - 1)
  }

  method Crc16(d: Word, crc: Word) returns (r: Word)
    ensures Crc.After(Crc.WordBytes(Bits(d)), Bits(crc), Bits(r))
  {
    hide Crc.After, Crc.WordBytes;
    var b := Crc.Crcu16(Bits(d), Bits(crc));
    r := FromBits(b);
  }

  lemma {:induction false} CopiesEnd(d: Word, n: nat)
    ensures Copies(d, n) + Crc.WordBytes(Bits(d)) == Copies(d, n + 1)
    decreases n
  {
    hide Crc.WordBytes, Bits;
    if n > 0 {
      CopiesEnd(d, n - 1);
    }
  }

  /** The list after a search that has found position k, or nothing. */
  function Shuffled(s: seq<ListHead>, k: nat): (r: seq<ListHead>)
    ensures |r| == |s|
  {
    if k < |s| then MovedUp(Reversed(s), |s| - 1 - k) else Reversed(s)
  }

  /** What a search adds to the result: bit 9 of a found odd value, or bit 8 of the
      item that has become second. */
  ghost function Scored(s: seq<ListHead>, v: map<ListHead, Item>, k: nat, retval: Word): Word
    requires |s| >= 2 && forall c | c in s :: c in v
  {
    if k < |s| then
      var d := v[s[k]].data16;
      if d % 2 == 1 then Wrap(retval + d / 0x200 % 2) else retval
    else Wrap(retval + High(v[s[|s| - 2]].data16) % 2)
  }

  /** The search as it shows in the contents. */
  method Locate(list: ListHead, idx: Short, data: Word, ghost s: seq<ListHead>,
                ghost info: map<ListHead, ListData>, ghost ds: set<ListData>, ghost v: map<ListHead, Item>)
    returns (r: ListHead?, ghost k: nat)
    requires IsList(list, s) && Holds(s, info, ds, v) && forall c | c in s :: c in v
    ensures k <= |s| && r == (if k < |s| then s[k] else null)
    ensures (k < |s| ==> Matches(v[s[k]], idx, data)) && forall i | 0 <= i < k :: !Matches(v[s[i]], idx, data)
  {
    hide Matches, IsList, Holds;
    r, k := Find(list, idx, data, s);
    HeldItems(s, info, ds, v);
  }

  /** Reverses a list that is not empty; position k ends up counted from the end. */
  method Turn(list0: ListHead, ghost s: seq<ListHead>, ghost k: nat,
              ghost info: map<ListHead, ListData>, ghost ds: set<ListData>, ghost v: map<ListHead, Item>)
    returns (list: ListHead)
    requires s != [] && IsList(list0, s) && Holds(s, info, ds, v)
    modifies s`next
    ensures IsList(list, Reversed(s)) && SameCells(s, Reversed(s)) && Holds(Reversed(s), info, ds, v)
    ensures k < |s| ==> Reversed(s)[|s| - 1 - k] == s[k]
  {
    hide IsList, Holds, SameCells;
    OneList(list0, s);
    var next := Reverse(list0, s, info, ds, v);
    ReversedSame(s);
    OneList(next, Reversed(s));
    list := next;
  }

  /** One search: find, reverse, and bring the cell behind the found one up front. */
  method Search(list0: ListHead, idx: Short, data: Word, retval0: Word, found0: Word, missed0: Word,
                ghost s0: seq<ListHead>,
                ghost info: map<ListHead, ListData>, ghost ds: set<ListData>, ghost v: map<ListHead, Item>)
    returns (list: ListHead, retval: Word, found: Word, missed: Word, ghost s: seq<ListHead>, ghost k: nat)
    requires |s0| >= 2 && IsList(list0, s0) && Holds(s0, info, ds, v) && forall c | c in s0 :: c in v
    modifies s0`next
    ensures IsList(list, s) && SameCells(s0, s) && Holds(s, info, ds, v)
    ensures k <= |s0| && forall i | 0 <= i < k :: !Matches(v[s0[i]], idx, data)
    ensures k < |s0| ==> Matches(v[s0[k]], idx, data)
    ensures s == Shuffled(s0, k) && retval == Scored(s0, v, k, retval0)
    ensures found == (if k < |s0| then (found0 + 1) % 0x10000 else found0)
    ensures missed == if k < |s0| then missed0 else (missed0 + 1) % 0x10000
  {
    hide MovedUp, Wrap, Matches, IsList, Holds, SameCells, Scored, Distinct;
    found, missed := found0, missed0;
    var thisFind;
    thisFind, k := Locate(list0, idx, data, s0, info, ds, v);
    list := Turn(list0, s0, k, info, ds, v);
    s := Reversed(s0);
    retval := Score(list, thisFind, retval0, s0, k, info, ds, v);
    if thisFind == null {
      missed := (missed + 1) % 0x10000;
    } else {
      found := (found + 1) % 0x10000;
      s := Promote(list, thisFind, s, |s| - 1 - k, info, ds, v, s0);
    }
  }

  /** The contribution of one search, taken from the reversed list. */
  method Score(list: ListHead, thisFind: ListHead?, retval0: Word, ghost s: seq<ListHead>, ghost k: nat,
               ghost info: map<ListHead, ListData>, ghost ds: set<ListData>, ghost v: map<ListHead, Item>)
    returns (retval: Word)
    requires |s| >= 2 && IsList(list, Reversed(s)) && Holds(Reversed(s), info, ds, v) && (forall c | c in s :: c in v)
    requires k <= |s| && thisFind == if k < |s| then s[k] else null
    ensures k < |s| && v[s[k]].data16 % 2 == 1 ==> retval == (retval0 + v[s[k]].data16 / 512 % 2) % 0x10000
    ensures k < |s| && v[s[k]].data16 % 2 == 0 ==> retval == retval0
    ensures k == |s| ==> retval == (retval0 + v[s[|s| - 2]].data16 / 256 % 2) % 0x10000
    ensures retval == Scored(s, v, k, retval0)
  {
    hide IsList, Holds;
    ghost var r := Reversed(s);
    SecondCell(list, r);
    HeldItems(r, info, ds, v);
    ReversedAt(s, |s| - 2);
    ReversedAt(s, k);
    retval := retval0;
    if thisFind == null {
      retval := Wrap(retval + High(list.next.info.data16) % 2);
    } else if thisFind.info.data16 % 2 == 1 {
      retval := Wrap(retval + thisFind.info.data16 / 0x200 % 2);
    }
  }

  method Promote(list: ListHead, thisFind: ListHead, ghost s: seq<ListHead>, ghost i: nat,
                 ghost info: map<ListHead, ListData>, ghost ds: set<ListData>, ghost v: map<ListHead, Item>,
                 ghost s0: seq<ListHead>)
    returns (ghost t: seq<ListHead>)
    requires IsList(list, s) && i < |s| && thisFind == s[i] && Holds(s, info, ds, v) && SameCells(s0, s)
    modifies s0`next
    ensures t == MovedUp(s, i) && IsList(list, t) && Holds(t, info, ds, v) && SameCells(s0, t)
  {
    hide IsList, MovedUp;
    assert forall k | 0 <= k < |s| :: s[k] in s0;
    MoveUp(list, thisFind, s, i);
    assert Holds(s, info, ds, v);
    t := MovedUp(s, i);
    MovedUpDistinct(s, i);
    HoldsSame(s, t, info, ds, v);
    SameCellsTransitive(s0, s, t);
  }

  lemma HeldItems(s: seq<ListHead>, info: map<ListHead, ListData>, ds: set<ListData>, v: map<ListHead, Item>)
    requires Holds(s, info, ds, v)
    ensures forall i | 0 <= i < |s| :: s[i] in v && ItemOf(s[i].info) == v[s[i]]
  {
  }

  lemma SecondCell(list: ListHead, s: seq<ListHead>)
    requires IsList(list, s) && |s| >= 2
    ensures list.next == s[1]
  {
    assert NextIs(s, 0);
  }

  lemma ReversedAt<T>(s: seq<T>, k: nat)
    ensures k < |s| ==> Reversed(s)[|s| - 1 - k] == s[k]
  {
  }

  /** The position of the first match, or the length. */
  ghost function FirstMatch(s: seq<ListHead>, v: map<ListHead, Item>, idx: Short, data: Word): (k: nat)
    requires forall c | c in s :: c in v
    ensures k <= |s| && (k < |s| ==> Matches(v[s[k]], idx, data))
    ensures forall i | 0 <= i < k :: !Matches(v[s[i]], idx, data)
  {
    if s == [] || Matches(v[s[0]], idx, data) then 0 else 1 + FirstMatch(s[1..], v, idx, data)
  }

  /** Everything the search loop changes. */
  datatype Hunt = Hunt(s: seq<ListHead>, idx: Short, data: Word, retval: Word, found: Word, missed: Word)

  ghost predicate Huntable(h: Hunt, v: map<ListHead, Item>) {
    |h.s| >= 2 && forall c | c in h.s :: c in v
  }

  /** Round i of the search loop. */
  ghost function HuntStep(h: Hunt, v: map<ListHead, Item>, i: nat): Hunt
    requires Huntable(h, v)
  {
    var k := FirstMatch(h.s, v, h.idx, i % 256);
    Hunt(Shuffled(h.s, k), Increment(h.idx), i % 256, Scored(h.s, v, k, h.retval),
         if k < |h.s| then Wrap(h.found + 1) else h.found, if k < |h.s| then h.missed else Wrap(h.missed + 1))
  }

  /** Rounds 0 to n - 1. */
  ghost function HuntAll(h: Hunt, v: map<ListHead, Item>, n: nat): Hunt {
    if n == 0 then h
    else
      var g := HuntAll(h, v, n - 1);
      if Huntable(g, v) then HuntStep(g, v, n - 1) else g
  }

  lemma NoRounds(h: Hunt, v: map<ListHead, Item>)
    ensures HuntAll(h, v, 0) == h
  {
  }

  lemma HuntRound(h: Hunt, v: map<ListHead, Item>, i: nat, k: nat)
    requires Huntable(HuntAll(h, v, i), v)
    requires var g := HuntAll(h, v, i);
      && k <= |g.s| && (k < |g.s| ==> Matches(v[g.s[k]], g.idx, i % 256))
      && forall j | 0 <= j < k :: !Matches(v[g.s[j]], g.idx, i % 256)
    ensures var g := HuntAll(h, v, i);
      HuntAll(h, v, i + 1) == Hunt(Shuffled(g.s, k), Increment(g.idx), i % 256, Scored(g.s, v, k, g.retval),
                                   if k < |g.s| then Wrap(g.found + 1) else g.found,
                                   if k < |g.s| then g.missed else Wrap(g.missed + 1))
  {
    hide Shuffled, Scored, Wrap, Increment, Matches;
    var g := HuntAll(h, v, i);
    assert k == FirstMatch(g.s, v, g.idx, i % 256);
  }

  lemma SameAsItself(s: seq<ListHead>)
    requires Distinct(s)
    ensures SameCells(s, s)
  {
  }

  lemma CellsOf(s: seq<ListHead>, t: seq<ListHead>)
    requires SameCells(s, t)
    ensures |s| == |t| && forall k | 0 <= k < |t| :: t[k] in s
  {
  }

  function Rounds(findNum: Short): nat { if findNum < 0 then 0 else findNum }

  lemma HeldHuntable(s: seq<ListHead>, info: map<ListHead, ListData>, ds: set<ListData>, v: map<ListHead, Item>)
    requires Holds(s, info, ds, v)
    ensures forall c | c in s :: c in v
  {
  }

  /** The search loop of core_bench_list. */
  method Searches(list0: ListHead, findNum: Short, finderIdx: Short, data0: Word, ghost s0: seq<ListHead>,
                  ghost info: map<ListHead, ListData>, ghost ds: set<ListData>, ghost v: map<ListHead, Item>)
    returns (list: ListHead, retval: Word, idx: Short, data: Word, ghost s: seq<ListHead>)
    requires |s0| >= 2 && IsList(list0, s0) && Holds(s0, info, ds, v)
    modifies s0`next
    ensures IsList(list, s) && SameCells(s0, s) && Holds(s, info, ds, v)
    ensures var h := HuntAll(Hunt(s0, finderIdx, data0, 0, 0, 0), v, Rounds(findNum));
      s == h.s && idx == h.idx && data == h.data && retval == (h.retval + h.found * 4 - h.missed) % 0x10000
    ensures idx == if finderIdx < 0 then finderIdx
      else if finderIdx + Rounds(findNum) <= 0x7fff then finderIdx + Rounds(findNum) else -0x8000
    ensures findNum > 0 ==> data == (findNum - 1) % 256
    ensures findNum <= 0 ==> data == data0 && s == s0 && retval == 0
  {
    hide IsList, Holds, Shuffled, Scored, Matches, HuntAll, SameCells;
    NoRounds(Hunt(s0, finderIdx, data0, 0, 0, 0), v);
    OneList(list0, s0);
    SameAsItself(s0);
    list, s, idx, data := list0, s0, finderIdx, data0;
    retval := 0;
    var found: Word, missed: Word := 0, 0;
    var i := 0;
    ghost var h0 := Hunt(s0, finderIdx, data0, 0, 0, 0);
    HeldHuntable(s0, info, ds, v);
    HuntLaws(h0, v, Rounds(findNum));
    while i < findNum
      invariant 0 <= i <= Rounds(findNum)
      invariant IsList(list, s) && SameCells(s0, s) && Holds(s, info, ds, v)
      invariant Hunt(s, idx, data, retval, found, missed) == HuntAll(h0, v, i)
      decreases findNum - i
    {
      ghost var t, g := s, HuntAll(h0, v, i);
      ghost var k;
      HeldHuntable(s, info, ds, v);
      CellsOf(s0, s);
      data := i % 256;
      list, retval, found, missed, s, k := Search(list, idx, data, retval, found, missed, s, info, ds, v);
      HuntRound(h0, v, i, k);
      SameCellsTransitive(s0, t, s);
      if idx >= 0 {
        idx := if idx == 0x7fff then -0x8000 else idx + 1;
      }
      i := i + 1;
    }
    retval := Wrap(retval + found * 4 - missed);
  }

  /** Every round moves an index that is not negative on by one, until it wraps around
      and stays; searches for the next byte; finds or misses; and keeps the cells. */
  lemma {:induction false} HuntLaws(h: Hunt, v: map<ListHead, Item>, n: nat)
    requires Huntable(h, v)
    ensures var g := HuntAll(h, v, n);
      && Huntable(g, v) && |g.s| == |h.s| && (forall c | c in g.s :: c in h.s)
      && g.idx == (if h.idx < 0 then h.idx else if h.idx + n <= 0x7fff then h.idx + n else -0x8000)
      && g.data == (if n == 0 then h.data else (n - 1) % 256)
      && (g.found + g.missed) % 0x10000 == (h.found + h.missed + n) % 0x10000
    decreases n
  {
    hide HuntStep;
    if n > 0 {
      HuntLaws(h, v, n - 1);
      var g := HuntAll(h, v, n - 1);
      RoundLaws(g, v, n - 1);
      Carried(h.found + h.missed + (n - 1), g.found + g.missed);
    }
  }

  lemma Carried(a: int, b: int)
    requires a % 0x10000 == b % 0x10000
    ensures (a + 1) % 0x10000 == (b + 1) % 0x10000
  {
  }

  lemma RoundLaws(h: Hunt, v: map<ListHead, Item>, i: nat)
    requires Huntable(h, v)
    ensures var g := HuntStep(h, v, i);
      && |g.s| == |h.s| && (forall c | c in g.s :: c in h.s)
      && g.idx == (if h.idx < 0 then h.idx else if h.idx < 0x7fff then h.idx + 1 else -0x8000)
      && g.data == i % 256 && (g.found + g.missed) % 0x10000 == (h.found + h.missed + 1) % 0x10000
  {
    hide Scored, FirstMatch, Shuffled;
    ShuffledCells(h.s, FirstMatch(h.s, v, h.idx, i % 256));
  }

  lemma ShuffledCells(s: seq<ListHead>, k: nat)
    ensures forall c | c in Shuffled(s, k) :: c in s
  {
    var r := Reversed(s);
    assert forall i | 0 <= i < |r| :: r[i] in s;
    if k < |s| {
      var m := MovedUp(r, |s| - 1 - k);
      assert forall i | 0 <= i < |m| :: m[i] in r;
    }
  }

  /** The CRC loops: they walk from `finder` to the end but feed the data of the
      head each time. */
  method WalkCrc(list: ListHead, finder0: ListHead?, crc: Word, ghost s: seq<ListHead>, ghost k0: nat, ghost d: Word,
                 ghost n: nat)
    returns (retval: Word)
    requires IsList(list, s) && k0 <= |s| && finder0 == if k0 < |s| then s[k0] else null
    requires d == list.info.data16 && n == |s| - k0
    ensures Crc.After(Copies(d, n), Bits(crc), Bits(retval))
  {
    hide Crc.After, Bits, Crc.WordBytes, IsList;
    retval := crc;
    Crc.AfterNothing(Bits(crc));
    var finder := finder0;
    ghost var k := k0;
    while finder != null
      invariant k0 <= k <= |s| && finder == if k < |s| then s[k] else null
      invariant Crc.After(Copies(d, k - k0), Bits(crc), Bits(retval))
      decreases |s| - k
    {
      ghost var before := retval;
      retval := Crc16(list.info.data16, retval);
      Crc.AfterBoth(Copies(d, k - k0), Crc.WordBytes(Bits(d)), Bits(crc), Bits(before), Bits(retval));
      CopiesEnd(d, k - k0);
      LinkAt(list, s, k);
      finder, k := finder.next, k + 1;
    }
  }

  lemma LinkAt(list: ListHead?, s: seq<ListHead>, k: nat)
    requires IsList(list, s) && k < |s|
    ensures s[k].next == if k + 1 < |s| then s[k + 1] else null
  {
    assert NextIs(s, k);
  }

  /** The checksum taken while the item behind the head is out: the list is one
      cell shorter and its second cell shows the next item.  The walk starts at the
      match, or behind the head, and feeds the head's data once per cell. */
  ghost predicate SummedWithout(s: seq<ListHead>, v: map<ListHead, Item>, idx: Short, data: Word, crc: Word,
                                retval: Word)
    requires |s| >= 3 && forall c | c in s :: c in v
  {
    var t, w := WithoutNext(s, 1), v[s[1] := v[s[2]]];
    var k := FirstMatch(t, w, idx, data);
    Crc.After(Copies(v[s[0]].data16, |t| - if k == |t| then 1 else k), Bits(crc), Bits(retval))
  }

  /** Takes one item out, runs a CRC over the rest, and puts the item back. */
  method RemoveAndUndo(list: ListHead, idx: Short, data: Word, crc: Word, ghost s: seq<ListHead>,
                       ghost info: map<ListHead, ListData>, ghost ds: set<ListData>, ghost v: map<ListHead, Item>)
    returns (retval: Word)
    requires |s| >= 3 && IsList(list, s) && Holds(s, info, ds, v) && forall c | c in s :: c in v
    modifies s
    ensures IsList(list, s) && Holds(s, info, ds, v)
    ensures SummedWithout(s, v, idx, data, crc, retval)
  {
    hide Matches, IsList, Crc.After, Bits, Copies;
    OneList(list, s);
    SecondCell(list, s);
    ghost var t, w := WithoutNext(s, 1), v[s[1] := v[s[2]]];
    FrontKept(s);
    var remover := Remove(list, list.next, s, 1);
    assert forall i | 0 <= i < |t| :: t[i] in w && ItemOf(t[i].info) == w[t[i]];
    var finder, k := Find(list, idx, data, t);
    assert k == FirstMatch(t, w, idx, data);
    SecondCell(list, t);
    if finder == null {
      finder, k := list.next, 1;
    }
    assert list == s[0] == t[0] && ItemOf(t[0].info) == w[t[0]];
    retval := WalkCrc(list, finder, crc, t, k, v[s[0]].data16, |t| - k);
    var back := UndoRemove(remover, list.next, list, s, 1);
    assert forall c | c in s :: c.info == old(c.info);
  }

  /** In other words: of the items without the one behind the head, the walk starts at the
      first that has the index, or for a negative index the byte, and covers all from
      there; if there is none it covers all but the head. */
  lemma SummedFrom(s: seq<ListHead>, v: map<ListHead, Item>, idx: Short, data: Word, crc: Word, retval: Word)
    returns (items: seq<Item>, k: nat)
    requires |s| >= 3 && Distinct(s) && (forall c | c in s :: c in v) && SummedWithout(s, v, idx, data, crc, retval)
    ensures |items| == |s| - 1 && items[0] == v[s[0]] && forall i | 1 <= i < |items| :: items[i] == v[s[i + 1]]
    ensures k <= |items|
    ensures idx >= 0 ==> (k < |items| ==> items[k].idx == idx) && forall i | 0 <= i < k :: items[i].idx != idx
    ensures idx < 0 ==>
      (k < |items| ==> items[k].data16 % 256 == data) && forall i | 0 <= i < k :: items[i].data16 % 256 != data
    ensures var count := if k == |items| then |items| - 1 else |items| - k;
      Crc.After(Copies(v[s[0]].data16, count), Bits(crc), Bits(retval))
  {
    hide Crc.After, Bits, Copies, FirstMatch;
    var t, w := WithoutNext(s, 1), v[s[1] := v[s[2]]];
    items := seq(|t|, i requires 0 <= i < |t| => if i == 0 then v[s[0]] else v[s[i + 1]]);
    k := FirstMatch(t, w, idx, data);
    forall i | 0 <= i < |t| ensures w[t[i]] == items[i] {
    }
  }

  lemma FrontKept<T>(s: seq<T>)
    requires |s| >= 3
    ensures WithoutNext(s, 1)[1] == s[1]
  {
  }

  ghost predicate Ascending(v: map<ListHead, Item>, s: seq<ListHead>) {
    && (forall c | c in s :: c in v)
    && forall i, j | 0 <= i < j < |s| :: v[s[i]].idx < v[s[j]].idx
  }

  ghost predicate Original(v: map<ListHead, Item>, s: seq<ListHead>) {
    forall c | c in s :: c in v && Low(v[c].data16) == High(v[c].data16)
  }

  /** A run of the benchmark from the list s0 with contents v0: the searches, the
      sort by value if the finder index is positive, the checksum without one item,
      the sort by index, and the checksum of the result. */
  ghost predicate Performed(s0: seq<ListHead>, v0: map<ListHead, Item>, findNum: Short, finderIdx: Short, data0: Word,
                            s2: seq<ListHead>, v1: map<ListHead, Item>, mid: Word,
                            s: seq<ListHead>, v: map<ListHead, Item>, retval: Word)
  {
    var h := HuntAll(Hunt(s0, finderIdx, data0, 0, 0, 0), v0, Rounds(findNum));
    && |s2| >= 3 && |s| >= 3 && (forall c | c in s2 :: c in v1) && s[0] in v
    && (if finderIdx > 0 then StablySorted(ByValue, v1, h.s, s2) && Extends(ByValue, v0, v1) else s2 == h.s && v1 == v0)
    && SummedWithout(s2, v1, h.idx, h.data, Wrap(h.retval + h.found * 4 - h.missed), mid)
    && StablySorted(ByIdx(true), v, s2, s) && Extends(ByIdx(true), v1, v)
    && Crc.After(Copies(v[s[0]].data16, |s| - 1), Bits(mid), Bits(retval))
  }

  /** The statements of core_bench_list, in order. */
  method Perform(res: CoreResults, finderIdx: Short, data0: Word, ghost s0: seq<ListHead>,
                 ghost info: map<ListHead, ListData>, ghost ds: set<ListData>, ghost v0: map<ListHead, Item>)
    returns (retval: Word, ghost list: ListHead, ghost s2: seq<ListHead>, ghost v1: map<ListHead, Item>,
             ghost mid: Word, ghost s: seq<ListHead>, ghost v: map<ListHead, Item>)
    requires |s0| >= 3 && IsList(res.list, s0) && Holds(s0, info, ds, v0)
    modifies s0, ds`data16, res
    ensures IsList(list, s) && SameCells(s0, s) && Holds(s, info, ds, v)
    ensures Performed(s0, v0, res.seed3, finderIdx, data0, s2, v1, mid, s, v, retval)
  {
    hide IsList, Holds, StablySorted, Extends, ComputedOnce, Crc.After, Bits, Copies, SummedWithout, HuntAll, Performed;
    OneList(res.list, s0);
    var head, idx, data;
    ghost var s1;
    head, retval, idx, data, s1 := Searches(res.list, res.seed3, finderIdx, data0, s0, info, ds, v0);
    ghost var sum, h := retval, HuntAll(Hunt(s0, finderIdx, data0, 0, 0, 0), v0, Rounds(res.seed3));
    assert s1 == h.s && idx == h.idx && data == h.data && sum == Wrap(h.retval + h.found * 4 - h.missed);
    assert forall k | 0 <= k < |s1| :: s1[k] in s0;
    if finderIdx > 0 {
      head, s2, v1 := Mergesort(head, CmpComplex, res, s1, info, ds, v0);
      SortedSame(ByValue, v1, s1, s2);
      SameCellsTransitive(s0, s1, s2);
    } else {
      s2, v1 := s1, v0;
    }
    assert forall k | 0 <= k < |s2| :: s2[k] in s0;
    HeldHuntable(s2, info, ds, v1);
    retval := RemoveAndUndo(head, idx, data, retval, s2, info, ds, v1);
    mid := retval;
    retval, list, s, v := SortBack(head, retval, s2, info, ds, v1);
    SameCellsTransitive(s0, s2, s);
    Assemble(h, s0, v0, res.seed3, finderIdx, data0, s2, v1, sum, mid, s, v, retval);
  }

  /** "Sort the list by index, in effect returning the list to original state", and
      its checksum. */
  method SortBack(list0: ListHead, crc: Word, ghost s0: seq<ListHead>,
                  ghost info: map<ListHead, ListData>, ghost ds: set<ListData>, ghost v0: map<ListHead, Item>)
    returns (retval: Word, list: ListHead, ghost s: seq<ListHead>, ghost v: map<ListHead, Item>)
    requires |s0| >= 3 && IsList(list0, s0) && Holds(s0, info, ds, v0)
    modifies s0`next, ds`data16
    ensures IsList(list, s) && SameCells(s0, s) && Holds(s, info, ds, v) && s[0] in v
    ensures StablySorted(ByIdx(true), v, s0, s) && Extends(ByIdx(true), v0, v)
    ensures Crc.After(Copies(v[s[0]].data16, |s| - 1), Bits(crc), Bits(retval))
  {
    hide IsList, Holds, StablySorted, Extends, Crc.After, Bits, Copies;
    list, s, v := Mergesort(list0, CmpIdx, null, s0, info, ds, v0);
    SortedSame(ByIdx(true), v, s0, s);
    OneList(list, s);
    SecondCell(list, s);
    HeldItems(s, info, ds, v);
    assert ItemOf(s[0].info) == v[s[0]];
    retval := WalkCrc(list, list.next, crc, s, 1, v[s[0]].data16, |s| - 1);
  }

  lemma Assemble(h: Hunt, s0: seq<ListHead>, v0: map<ListHead, Item>, findNum: Short, finderIdx: Short, data0: Word,
                 s2: seq<ListHead>, v1: map<ListHead, Item>, sum: Word, mid: Word,
                 s: seq<ListHead>, v: map<ListHead, Item>, retval: Word)
    requires h == HuntAll(Hunt(s0, finderIdx, data0, 0, 0, 0), v0, Rounds(findNum))
    requires |s2| >= 3 && |s| >= 3 && (forall c | c in s2 :: c in v1) && s[0] in v
    requires finderIdx > 0 ==> StablySorted(ByValue, v1, h.s, s2) && Extends(ByValue, v0, v1)
    requires finderIdx <= 0 ==> s2 == h.s && v1 == v0
    requires sum == Wrap(h.retval + h.found * 4 - h.missed) && SummedWithout(s2, v1, h.idx, h.data, sum, mid)
    requires StablySorted(ByIdx(true), v, s2, s) && Extends(ByIdx(true), v1, v)
    requires Crc.After(Copies(v[s[0]].data16, |s| - 1), Bits(mid), Bits(retval))
    ensures Performed(s0, v0, findNum, finderIdx, data0, s2, v1, mid, s, v, retval)
  {
    hide StablySorted, HuntAll, SummedWithout, Crc.After, Bits, Extends;
  }

  /** core_bench_list.  For every list of at least 3 cells, every seed and every
      finder index: the list ends up sorted by index, with the same cells, the same
      data cells behind them and every item regenerated from its high byte.  So a
      list that was in ascending order of index with regenerated items is left
      exactly as it was: same head, same order, same contents. */
  method BenchList(res: CoreResults, finderIdx: Short, data0: Word, ghost s0: seq<ListHead>,
                   ghost info: map<ListHead, ListData>, ghost ds: set<ListData>, ghost v0: map<ListHead, Item>)
    returns (retval: Word, ghost list: ListHead, ghost s: seq<ListHead>, ghost v: map<ListHead, Item>)
    requires |s0| >= 3 && IsList(res.list, s0) && Holds(s0, info, ds, v0)
    modifies s0, ds`data16, res
    ensures IsList(list, s) && SameCells(s0, s) && Holds(s, info, ds, v)
    ensures forall i, j | 0 <= i < j < |s| :: v[s[i]].idx <= v[s[j]].idx
    ensures forall c | c in s0 :: v[c] == Item(Regenerated(v0[c].data16), v0[c].idx)
    ensures Ascending(v0, s0) && Original(v0, s0) ==> IsList(res.list, s0) && Holds(s0, info, ds, v0)
    ensures exists s2, v1, mid :: Performed(s0, v0, res.seed3, finderIdx, data0, s2, v1, mid, s, v, retval)
  {
    hide IsList, Holds, Regenerated, Ascending, Original, Performed, Extends, StablySorted;
    OneList(res.list, s0);
    ghost var s2, v1, mid;
    retval, list, s2, v1, mid, s, v := Perform(res, finderIdx, data0, s0, info, ds, v0);
    OneList(list, s);
    PerformedSorts(s0, v0, res.seed3, finderIdx, data0, s2, v1, mid, s, v, retval);
    AfterSort(v0, v1, v, s0, s2, s);
    if Ascending(v0, s0) && Original(v0, s0) {
      Restored(v0, v, s0, s, info, ds);
    }
  }

  lemma PerformedSorts(s0: seq<ListHead>, v0: map<ListHead, Item>, findNum: Short, finderIdx: Short, data0: Word,
                       s2: seq<ListHead>, v1: map<ListHead, Item>, mid: Word, s: seq<ListHead>, v: map<ListHead, Item>,
                       retval: Word)
    requires Performed(s0, v0, findNum, finderIdx, data0, s2, v1, mid, s, v, retval)
    ensures Extends(ByValue, v0, v1) && Extends(ByIdx(true), v1, v) && StablySorted(ByIdx(true), v, s2, s)
  {
    hide StablySorted, HuntAll, SummedWithout, Crc.After, Bits;
  }

  lemma SortedSame(m: Mode, v: map<ListHead, Item>, s: seq<ListHead>, t: seq<ListHead>)
    requires StablySorted(m, v, s, t)
    ensures SameCells(s, t)
  {
  }

  lemma AfterSort(v0: map<ListHead, Item>, v1: map<ListHead, Item>, v: map<ListHead, Item>,
                  s0: seq<ListHead>, s2: seq<ListHead>, s: seq<ListHead>)
    requires Extends(ByValue, v0, v1) && Extends(ByIdx(true), v1, v) && StablySorted(ByIdx(true), v, s2, s)
    requires SameCells(s0, s) && |s| >= 2
    ensures forall c | c in s0 :: c in v && c in v0 && v[c] == Item(Regenerated(v0[c].data16), v0[c].idx)
    ensures forall i, j | 0 <= i < j < |s| :: s[i] in v && s[j] in v && v[s[i]].idx <= v[s[j]].idx
  {
    forall c | c in s0 ensures c in v && c in v0 && v[c] == Item(Regenerated(v0[c].data16), v0[c].idx) {
      assert c in s;
      var i :| 0 <= i < |s| && s[i] == c;
      assert Settled(ByIdx(true), v[s[i]].data16);
      SameBytes(v[c].data16, Regenerated(v0[c].data16));
    }
    forall i, j | 0 <= i < j < |s| ensures v[s[i]].idx <= v[s[j]].idx {
      assert Key(ByIdx(true), v[s[i]]) <= Key(ByIdx(true), v[s[j]]);
    }
  }

  lemma SameBytes(d: Word, e: Word)
    requires High(d) == High(e) && Low(d) == Low(e)
    ensures d == e
  {
  }

  /** An ascending list of regenerated items comes back unchanged. */
  lemma Restored(v0: map<ListHead, Item>, v: map<ListHead, Item>, s0: seq<ListHead>, s: seq<ListHead>,
                 info: map<ListHead, ListData>, ds: set<ListData>)
    requires Ascending(v0, s0) && Original(v0, s0) && SameCells(s0, s) && Holds(s, info, ds, v)
    requires forall c | c in s0 :: c in v && v[c] == Item(Regenerated(v0[c].data16), v0[c].idx)
    requires forall i, j | 0 <= i < j < |s| :: s[i] in v && s[j] in v && v[s[i]].idx <= v[s[j]].idx
    ensures s == s0 && Holds(s0, info, ds, v0)
  {
    forall c | c in s0 ensures v[c] == v0[c] {
      SameBytes(v0[c].data16, Regenerated(v0[c].data16));
    }
    StrictlySorted(v0, s0, s);
    OrderIsUnique((x, y) => x in v0 && y in v0 && v0[x].idx < v0[y].idx, s0, s);
  }

  lemma StrictlySorted(v: map<ListHead, Item>, s0: seq<ListHead>, s: seq<ListHead>)
    requires Ascending(v, s0) && SameCells(s0, s)
    requires forall i, j | 0 <= i < j < |s| :: s[i] in v && s[j] in v && v[s[i]].idx <= v[s[j]].idx
    ensures forall i, j | 0 <= i < j < |s| :: v[s[i]].idx < v[s[j]].idx
  {
    forall i, j | 0 <= i < j < |s| ensures v[s[i]].idx < v[s[j]].idx {
      assert s[i] in s0 && s[j] in s0;
      var k :| 0 <= k < |s0| && s0[k] == s[i];
      var l :| 0 <= l < |s0| && s0[l] == s[j];
    }
  }

  // ----- lists in which indices repeat -----------------------------------------------------

  ghost predicate NonDescending(v: map<ListHead, Item>, s: seq<ListHead>)
    requires forall c | c in s :: c in v
  {
    forall i, j | 0 <= i < j < |s| :: v[s[i]].idx <= v[s[j]].idx
  }

  /** Cells of s with equal indices stand in t in the same order. */
  ghost predicate TiesKept(v: map<ListHead, Item>, s: seq<ListHead>, t: seq<ListHead>)
    requires forall c | c in s :: c in v
  {
    forall i, j | 0 <= i < j < |s| && v[s[i]].idx == v[s[j]].idx :: Ahead(t, s[i], s[j])
  }

  lemma AheadAt(s: seq<ListHead>, i: nat, j: nat)
    requires i < j < |s|
    ensures Ahead(s, s[i], s[j])
  {
  }

  /** Two cells of a list stand in it in exactly one of the two orders. */
  lemma AheadOneWay(t: seq<ListHead>, x: ListHead, y: ListHead)
    requires Distinct(t)
    ensures !(Ahead(t, x, y) && Ahead(t, y, x))
    ensures x in t && y in t && x != y ==> Ahead(t, x, y) || Ahead(t, y, x)
  {
    if x in t && y in t && x != y {
      var i :| 0 <= i < |t| && t[i] == x;
      var j :| 0 <= j < |t| && t[j] == y;
      assert i < j || j < i;
    }
  }

  /** A stable sort of t by index gives back s0 exactly when s0 is sorted and t has
      kept the ties of s0 in order. */
  lemma SortGivesBack(v: map<ListHead, Item>, s0: seq<ListHead>, t: seq<ListHead>, s: seq<ListHead>)
    requires StablySorted(ByIdx(true), v, t, s) && SameCells(s0, s) && forall c | c in s0 :: c in v
    ensures s == s0 <==> NonDescending(v, s0) && TiesKept(v, s0, t)
  {
    hide Ahead;
    forall i, j | 0 <= i < j < |s|
      ensures v[s[i]].idx <= v[s[j]].idx && (v[s[i]].idx == v[s[j]].idx ==> Ahead(t, s[i], s[j]))
    {
      assert s[i] in t && s[j] in t && Ahead(s, s[i], s[j]) by { AheadAt(s, i, j); }
      AheadIff(ByIdx(true), v, t, s, s[i], s[j]);
    }
    if NonDescending(v, s0) && TiesKept(v, s0, t) {
      forall x, y ensures !(Ahead(t, x, y) && Ahead(t, y, x)) {
        AheadOneWay(t, x, y);
      }
      var before := (x, y) =>
        x in v && y in v && (v[x].idx < v[y].idx || (v[x].idx == v[y].idx && Ahead(t, x, y)));
      OrderIsUnique(before, s0, s);
    }
  }

  /** After a stable sort a cell is ahead of another exactly when its key is less, or
      equal and it was ahead before. */
  lemma AheadIff(m: Mode, v: map<ListHead, Item>, t: seq<ListHead>, s: seq<ListHead>, x: ListHead, y: ListHead)
    requires StablySorted(m, v, t, s) && x in t && y in t && x != y
    ensures x in v && y in v
    ensures Ahead(s, x, y) <==> Key(m, v[x]) < Key(m, v[y]) || (Key(m, v[x]) == Key(m, v[y]) && Ahead(t, x, y))
  {
    hide Key;
    AheadOneWay(t, x, y);
    AheadOneWay(s, x, y);
    assert x in s && y in s;
    assert Ahead(s, x, y) ==> Key(m, v[x]) <= Key(m, v[y]);
    assert Ahead(s, y, x) ==> Key(m, v[y]) <= Key(m, v[x]);
    assert Key(m, v[x]) == Key(m, v[y]) && Ahead(t, x, y) ==> Ahead(s, x, y);
    assert Key(m, v[x]) == Key(m, v[y]) && Ahead(t, y, x) ==> Ahead(s, y, x);
  }

  /** Cells of s0 with equal indices are kept in order by a stable sort of t by the
      values in v1. */
  ghost predicate TiesSurvive(v: map<ListHead, Item>, v1: map<ListHead, Item>, s0: seq<ListHead>, t: seq<ListHead>)
    requires forall c | c in s0 :: c in v && c in v1
  {
    forall i, j | 0 <= i < j < |s0| && v[s0[i]].idx == v[s0[j]].idx ::
      var x, y := v1[s0[i]].data16 % 128, v1[s0[j]].data16 % 128;
      x < y || (x == y && Ahead(t, s0[i], s0[j]))
  }

  lemma TiesThroughSort(v: map<ListHead, Item>, v1: map<ListHead, Item>, s0: seq<ListHead>, t: seq<ListHead>,
                        s: seq<ListHead>)
    requires (forall c | c in s0 :: c in v && c in v1) && StablySorted(ByValue, v1, t, s) && SameCells(s0, s)
    ensures TiesKept(v, s0, s) <==> TiesSurvive(v, v1, s0, t)
  {
    hide Ahead, StablySorted;
    SortedSame(ByValue, v1, t, s);
    forall i, j | 0 <= i < j < |s0|
      ensures var x, y := v1[s0[i]].data16 % 128, v1[s0[j]].data16 % 128;
        Ahead(s, s0[i], s0[j]) <==> x < y || (x == y && Ahead(t, s0[i], s0[j]))
    {
      assert s0[i] in t && s0[j] in t;
      AheadIff(ByValue, v1, t, s, s0[i], s0[j]);
    }
  }

  /** When the benchmark restores its list, for any list: exactly when it was sorted
      by index, its items were regenerated, and cells of equal index come out of the
      searches and of the sort by value in order.  That is decided by the input and,
      if there is a sort by value, the values it computes. */
  lemma RestoredExactly(s0: seq<ListHead>, v0: map<ListHead, Item>, findNum: Short, finderIdx: Short, data0: Word,
                        s2: seq<ListHead>, v1: map<ListHead, Item>, mid: Word, s: seq<ListHead>, v: map<ListHead, Item>,
                        retval: Word)
    requires Performed(s0, v0, findNum, finderIdx, data0, s2, v1, mid, s, v, retval)
    requires SameCells(s0, s) && forall c | c in s0 :: c in v0
    ensures forall c | c in s0 :: c in v && c in v1 && Updated(ByValue, v0[c], v1[c])
    ensures var searched := HuntAll(Hunt(s0, finderIdx, data0, 0, 0, 0), v0, Rounds(findNum)).s;
      s == s0 <==>
        NonDescending(v0, s0) && if finderIdx > 0 then TiesSurvive(v0, v1, s0, searched) else TiesKept(v0, s0, searched)
    ensures (forall c | c in s0 :: v[c] == v0[c]) <==> Original(v0, s0)
  {
    hide StablySorted, HuntAll, SummedWithout, Crc.After, Bits, Ahead, Regenerated, Updated, TiesKept, TiesSurvive;
    PerformedSorts(s0, v0, findNum, finderIdx, data0, s2, v1, mid, s, v, retval);
    AfterSort(v0, v1, v, s0, s2, s);
    SortGivesBack(v, s0, s2, s);
    SameTies(v, v0, s0, s2);
    forall c | c in s0 ensures v[c] == v0[c] <==> Low(v0[c].data16) == High(v0[c].data16) {
      RegeneratedSame(v0[c].data16);
    }
    if finderIdx > 0 {
      var searched := HuntAll(Hunt(s0, finderIdx, data0, 0, 0, 0), v0, Rounds(findNum)).s;
      SortedSame(ByIdx(true), v, s2, s);
      SameCellsBack(s0, s2, s);
      TiesThroughSort(v0, v1, s0, searched, s2);
    }
  }

  lemma SameTies(v: map<ListHead, Item>, w: map<ListHead, Item>, s0: seq<ListHead>, t: seq<ListHead>)
    requires forall c | c in s0 :: c in v && c in w && v[c].idx == w[c].idx
    ensures TiesKept(v, s0, t) <==> TiesKept(w, s0, t)
  {
    hide Ahead;
  }

  lemma SameCellsBack(r: seq<ListHead>, s: seq<ListHead>, t: seq<ListHead>)
    requires SameCells(r, t) && SameCells(s, t)
    ensures SameCells(r, s)
  {
  }

  lemma RegeneratedSame(d: Word)
    ensures Regenerated(d) == d <==> Low(d) == High(d)
  {
  }

  /** One search that finds nothing reverses the list, so that without the sort by
      value every tie comes back the other way round: the list is restored only if
      no index repeats. */
  lemma OneMissedSearch(s0: seq<ListHead>, v0: map<ListHead, Item>, finderIdx: Short, data0: Word,
                        s2: seq<ListHead>, v1: map<ListHead, Item>, mid: Word, s: seq<ListHead>, v: map<ListHead, Item>,
                        retval: Word)
    requires Performed(s0, v0, 1, finderIdx, data0, s2, v1, mid, s, v, retval) && finderIdx <= 0
    requires SameCells(s0, s) && (forall c | c in s0 :: c in v0) && FirstMatch(s0, v0, finderIdx, 0) == |s0|
    ensures s == s0 <==> Ascending(v0, s0)
  {
    hide Performed, Ahead, FirstMatch, HuntAll, Updated;
    RestoredExactly(s0, v0, 1, finderIdx, data0, s2, v1, mid, s, v, retval);
    PerformedLength(s0, v0, 1, finderIdx, data0, s2, v1, mid, s, v, retval);
    OneRound(Hunt(s0, finderIdx, data0, 0, 0, 0), v0);
    forall i, j | 0 <= i < j < |s0| ensures !Ahead(Reversed(s0), s0[i], s0[j]) {
      ReversedAhead(s0, i, j);
    }
  }

  lemma PerformedLength(s0: seq<ListHead>, v0: map<ListHead, Item>, findNum: Short, finderIdx: Short, data0: Word,
                        s2: seq<ListHead>, v1: map<ListHead, Item>, mid: Word, s: seq<ListHead>, v: map<ListHead, Item>,
                        retval: Word)
    requires Performed(s0, v0, findNum, finderIdx, data0, s2, v1, mid, s, v, retval)
    ensures |s| >= 3
  {
    hide StablySorted, HuntAll, SummedWithout, Crc.After, Bits, Extends;
  }

  lemma OneRound(h: Hunt, v: map<ListHead, Item>)
    requires Huntable(h, v) && FirstMatch(h.s, v, h.idx, 0) == |h.s|
    ensures HuntAll(h, v, 1).s == Reversed(h.s)
  {
    hide FirstMatch, Scored;
    assert HuntAll(h, v, 0) == h;
  }

  lemma ReversedAhead(s: seq<ListHead>, i: nat, j: nat)
    requires Distinct(s) && i < j < |s|
    ensures !Ahead(Reversed(s), s[i], s[j])
  {
    var t := Reversed(s);
    ReversedSame(s);
    assert t[|s| - 1 - j] == s[j] && t[|s| - 1 - i] == s[i];
    assert Ahead(t, s[j], s[i]);
    AheadOneWay(t, s[i], s[j]);
  }
}
