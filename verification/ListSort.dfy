/** The linked list of CoreMark in the heap, its two comparators and the
    in-place, non-recursive mergesort. */
module ListSort {
  import opened Basics
  import opened SortOrder
  import Crc

  class ListData {
    var data16: Word
    var idx: Short

    constructor (data16: Word, idx: Short)
      ensures this.data16 == data16 && this.idx == idx
    {
      this.data16, this.idx := data16, idx;
    }
  }

  class ListHead {
    var next: ListHead?
    var info: ListData

    constructor (next: ListHead?, info: ListData)
      ensures this.next == next && this.info == info
    {
      this.next, this.info := next, info;
    }
  }

  /** The part of core_results that the list benchmark uses.  The results of the
      benchmark calls are arbitrary: any function of the number of the call, the
      operation, its argument and the running CRC. */
  class CoreResults {
    const list: ListHead?
    const seed3: Short
    const benchmark: (nat, nat, nat, bv16) -> Word
    var calls: nat
    var crc: bv16
    var crcstate: Word
    var crcmatrix: Word
    ghost var computed: multiset<ListData>

    constructor (list: ListHead?, seed3: Short, benchmark: (nat, nat, nat, bv16) -> Word)
      ensures this.list == list && this.seed3 == seed3 && this.benchmark == benchmark
      ensures calls == 0 && crc == 0 && crcstate == 0 && crcmatrix == 0
      ensures computed == multiset{}
    {
      this.list, this.seed3, this.benchmark := list, seed3, benchmark;
      calls, crc, crcstate, crcmatrix := 0, 0, 0, 0;
      computed := multiset{};
    }
  }

  // ----- lists in the heap ------------------------------------------------------------

  ghost predicate NextIs(s: seq<ListHead>, i: nat)
    requires i < |s|
    reads s
  {
    s[i].next == if i + 1 < |s| then s[i + 1] else null
  }

  function First(s: seq<ListHead>): ListHead? {
    if s == [] then null else s[0]
  }

  /** `list` is the acyclic list of exactly the cells s, in this order. */
  ghost predicate IsList(list: ListHead?, s: seq<ListHead>)
    reads s
  {
    Distinct(s) && list == First(s) && forall i {:trigger NextIs(s, i)} | 0 <= i < |s| :: NextIs(s, i)
  }

  function ItemOf(d: ListData): Item
    reads d
  {
    Item(d.data16, d.idx)
  }

  /** The cells s keep their items in the pairwise different data cells given by
      `info`, and the contents of these are v. */
  ghost predicate Holds(s: seq<ListHead>, info: map<ListHead, ListData>, ds: set<ListData>, v: map<ListHead, Item>)
    reads s, ds
  {
    && (forall c | c in s :: c in v && c in info && info[c] in ds && c.info == info[c] && v[c] == ItemOf(info[c]))
    && (forall b, c | b in s && c in s && b != c :: info[b] != info[c])
  }

  // ----- comparators ----------------------------------------------------------------------

  /** The comparators of CoreMark, or any other that leaves the items alone. */
  datatype Cmp = CmpComplex | CmpIdx | CmpBy(compare: (Item, Item) -> int)

  function ModeOf(cmp: Cmp, res: CoreResults?): Mode {
    match cmp
    case CmpComplex => ByValue
    case CmpIdx => ByIdx(res == null)
    case CmpBy(compare) => ByOrder(compare)
  }

  function Bits(w: Word): bv16 { w as bv16 }

  /** One computation if the item has changed, none if it has not. */
  ghost function Change(d: ListData, before: Item, after: Item): multiset<ListData> {
    if before == after then multiset{} else multiset{d}
  }

  /** The argument of the benchmark call: bits 3-6 twice over, with a minimum for
      the state benchmark. */
  function Argument(d: Word): nat {
    var dtype := 17 * (d / 8 % 16);
    if Flag(d) == 0 && dtype < 0x22 then 0x22 else dtype
  }

  /** The value that calc_func computes for data that is not cached. */
  function RawValue(d: Word, benchmark: (nat, nat, nat, bv16) -> Word, calls: nat, crc: bv16): Word {
    if Flag(d) < 2 then benchmark(calls, Flag(d), Argument(d), crc) else d
  }

  /** calc_func: a cached value is returned as it is; otherwise the value is computed,
      cached in the item and added to the checksum, and the first results of the two
      benchmarks are remembered. */
  method CalcFunc(pdata: ListData, res: CoreResults) returns (retval: Word)
    modifies pdata`data16, res
    ensures old(pdata.data16) / 128 % 2 == 1 ==> retval == old(pdata.data16) % 128 && unchanged(pdata) && unchanged(res)
    ensures pdata.data16 == old(pdata.data16) / 256 * 256 + 128 + retval < 0x10000 && 0 <= retval < 128
    ensures old(pdata.data16) / 128 % 2 == 0 && old(pdata.data16) % 8 >= 2 ==> retval == old(pdata.data16) % 128
    ensures Settled(ByValue, pdata.data16)
    ensures Updated(ByValue, old(ItemOf(pdata)), ItemOf(pdata))
    ensures res.computed == old(res.computed) + Change(pdata, old(ItemOf(pdata)), ItemOf(pdata))
    ensures Cached(old(pdata.data16)) ==> pdata.data16 == old(pdata.data16) && unchanged(res)
    ensures !Cached(old(pdata.data16)) ==>
      var d := old(pdata.data16);
      var raw := RawValue(d, res.benchmark, old(res.calls), old(res.crc));
      && pdata.data16 == WithCache(d, raw % 128) && Crc.After(Crc.WordBytes(Bits(raw)), old(res.crc), res.crc)
      && res.calls == old(res.calls) + (if Flag(d) < 2 then 1 else 0)
      && res.crcstate == (if Flag(d) == 0 && old(res.crcstate) == 0 then raw else old(res.crcstate))
      && res.crcmatrix == (if Flag(d) == 1 && old(res.crcmatrix) == 0 then raw else old(res.crcmatrix))
  {
    hide Crc.After, Crc.WordBytes, Bits, RawValue, Updated, Settled, Flag, Cached, WithCache;
    var data := pdata.data16;
    CachedIsSettled(data);
    CacheByte(data);
    if Cached(data) {
      UnchangedIsUpdated(ByValue);
      return data % 128;
    }
    retval := Compute(data, res);
    res.computed := res.computed + multiset{pdata};
    var crc := Crc.Crcu16(Bits(retval), res.crc);
    res.crc := crc;
    CachingUpdates(data, retval, pdata.idx);
    retval := retval % 128;
    pdata.data16 := WithCache(data, retval);
  }

  /** The cache in numbers: bit 7 and the seven bits below it. */
  lemma CacheByte(d: Word)
    ensures Cached(d) <==> d / 128 % 2 == 1
    ensures Cached(d) ==> d == d / 256 * 256 + 128 + d % 128
    ensures forall v: nat | v < 128 :: WithCache(d, v) == d / 256 * 256 + 128 + v
    ensures d % 8 == Flag(d)
  {
  }

  lemma CachedIsSettled(d: Word)
    ensures Settled(ByValue, d) <==> Cached(d)
  {
  }

  lemma CachingUpdates(d: Word, raw: Word, idx: Short)
    requires !Cached(d) && (Flag(d) >= 2 ==> raw == d)
    ensures var e := WithCache(d, raw % 128);
      Updated(ByValue, Item(d, idx), Item(e, idx)) && Settled(ByValue, e) && e != d && e % 128 == raw % 128
  {
  }

  /** The switch of calc_func. */
  method Compute(data: Word, res: CoreResults) returns (retval: Word)
    modifies res`calls, res`crcstate, res`crcmatrix
    ensures var dtype := data / 8 % 16 * 16 + data / 8 % 16;
      if data % 8 == 0 then retval == res.benchmark(old(res.calls), 0, if dtype < 0x22 then 0x22 else dtype, res.crc)
      else if data % 8 == 1 then retval == res.benchmark(old(res.calls), 1, dtype, res.crc)
      else retval == data
    ensures retval == RawValue(data, res.benchmark, old(res.calls), res.crc) && (Flag(data) >= 2 ==> retval == data)
    ensures res.calls == old(res.calls) + if Flag(data) < 2 then 1 else 0
    ensures res.crcstate == if Flag(data) == 0 && old(res.crcstate) == 0 then retval else old(res.crcstate)
    ensures res.crcmatrix == if Flag(data) == 1 && old(res.crcmatrix) == 0 then retval else old(res.crcmatrix)
  {
    var flag := Flag(data);
    var dtype := data / 8 % 16;
    dtype := dtype + 16 * dtype;
    if flag == 0 {
      if dtype < 0x22 {
        dtype := 0x22;
      }
      retval := res.benchmark(res.calls, flag, dtype, res.crc);
      res.calls := res.calls + 1;
      if res.crcstate == 0 {
        res.crcstate := retval;
      }
    } else if flag == 1 {
      retval := res.benchmark(res.calls, flag, dtype, res.crc);
      res.calls := res.calls + 1;
      if res.crcmatrix == 0 {
        res.crcmatrix := retval;
      }
    } else {
      retval := data;
    }
  }

  /** calc_func as the comparator sees it: the key of an item that is settled from
      then on. */
  method CompareValue(pdata: ListData, res: CoreResults) returns (val: int)
    modifies pdata`data16, res
    ensures val == Key(ByValue, ItemOf(pdata)) && Settled(ByValue, pdata.data16)
    ensures Updated(ByValue, old(ItemOf(pdata)), ItemOf(pdata))
    ensures res.computed == old(res.computed) + Change(pdata, old(ItemOf(pdata)), ItemOf(pdata))
    ensures old(Settled(ByValue, pdata.data16)) ==> pdata.data16 == old(pdata.data16) && unchanged(res)
  {
    CachedIsSettled(pdata.data16);
    val := CalcFunc(pdata, res);
  }

  method Compare(cmp: Cmp, a: ListData, b: ListData, res: CoreResults?) returns (r: int)
    requires cmp.CmpComplex? ==> res != null
    modifies a`data16, b`data16, if cmp.CmpComplex? then {res} else {}
    ensures var m := ModeOf(cmp, res);
      && Settled(m, a.data16) && Settled(m, b.data16)
      && Updated(m, old(ItemOf(a)), ItemOf(a)) && Updated(m, old(ItemOf(b)), ItemOf(b))
      && r == if cmp.CmpBy? then cmp.compare(ItemOf(a), ItemOf(b)) else Key(m, ItemOf(a)) - Key(m, ItemOf(b))
    ensures cmp.CmpComplex? ==>
      res.computed == old(res.computed) + Change(a, old(ItemOf(a)), ItemOf(a))
        + if a == b then multiset{} else Change(b, old(ItemOf(b)), ItemOf(b))
  {
    hide Updated, Settled, Regenerated, Crc.After, Crc.WordBytes, Bits, RawValue, WithCache;
    UnchangedIsUpdated(ModeOf(cmp, res));
    match cmp {
      case CmpComplex =>
        var val1: int := CompareValue(a, res);
        var val2: int := CompareValue(b, res);
        r := val1 - val2;
      case CmpIdx =>
        RegeneratingUpdates(ModeOf(cmp, res), a.data16, a.idx);
        RegeneratingUpdates(ModeOf(cmp, res), b.data16, b.idx);
        if res == null {
          a.data16 := Regenerated(a.data16);
          b.data16 := Regenerated(b.data16);
        }
        r := a.idx - b.idx;
      case CmpBy(compare) =>
        AlwaysSettled(compare);
        r := compare(Item(a.data16, a.idx), Item(b.data16, b.idx));
    }
  }

  lemma RegeneratingUpdates(m: Mode, d: Word, idx: Short)
    requires m.ByIdx?
    ensures var e := if m.regenerate then Regenerated(d) else d;
      Updated(m, Item(d, idx), Item(e, idx)) && Settled(m, e)
    ensures Regenerated(Regenerated(d)) == Regenerated(d)
  {
  }

  lemma AlwaysSettled(compare: (Item, Item) -> int)
    ensures forall d :: Settled(ByOrder(compare), d)
  {
  }

  // ----- the mergesort ----------------------------------------------------------------------

  /** During a pass over s: out is linked up so far, s[pi..mid) and s[qj..) are
      still linked as at the start of the pass. */
  ghost predicate Merging(s: seq<ListHead>, out: seq<ListHead>, list: ListHead?, tail: ListHead?, pi: nat, mid: nat,
                          qj: nat)
    reads s, out
  {
    && pi <= mid <= qj <= |s| && |out| == pi + (qj - mid)
    && Distinct(s) && Distinct(out)
    && (forall x | x in out :: x in s)
    && (forall k | pi <= k < mid || qj <= k < |s| :: s[k] !in out)
    && (forall k {:trigger NextIs(s, k)} | pi <= k < mid || qj <= k < |s| :: NextIs(s, k))
    && list == First(out) && tail == (if out == [] then null else out[|out| - 1])
    && (forall i {:trigger NextIs(out, i)} | 0 <= i < |out| - 1 :: NextIs(out, i))
  }

  /** Every item has been computed once since v0 if it changed, and not at all if
      it did not; nothing else has been computed. */
  ghost predicate ComputedOnce(s: seq<ListHead>, info: map<ListHead, ListData>, v0: map<ListHead, Item>,
                               v: map<ListHead, Item>, c0: multiset<ListData>, c: multiset<ListData>)
  {
    && (forall x | x in s ::
          x in v0 && x in v && x in info && c[info[x]] == c0[info[x]] + if v[x] == v0[x] then 0 else 1)
    && (forall d | d in c :: d in info.Values || c[d] == c0[d])
  }

  lemma ComputedTransitive(s: seq<ListHead>, info: map<ListHead, ListData>,
                           u: map<ListHead, Item>, v: map<ListHead, Item>, w: map<ListHead, Item>,
                           c0: multiset<ListData>, c1: multiset<ListData>, c2: multiset<ListData>)
    requires ComputedOnce(s, info, u, v, c0, c1) && ComputedOnce(s, info, v, w, c1, c2)
    requires Extends(ByValue, u, v) && Extends(ByValue, v, w)
    ensures ComputedOnce(s, info, u, w, c0, c2)
  {
  }

  lemma PairComputed(s: seq<ListHead>, info: map<ListHead, ListData>, v: map<ListHead, Item>, w: map<ListHead, Item>,
                     p: ListHead, q: ListHead, c0: multiset<ListData>, c1: multiset<ListData>)
    requires p in s && q in s && p != q && forall x | x in s :: x in info && x in v && x in w
    requires forall x, y | x in s && y in s && x != y :: info[x] != info[y]
    requires forall x | x in s && x != p && x != q :: w[x] == v[x]
    requires c1 == c0 + Change(info[p], v[p], w[p]) + Change(info[q], v[q], w[q])
    ensures ComputedOnce(s, info, v, w, c0, c1)
  {
  }

  ghost function Computed(cmp: Cmp, res: CoreResults?): multiset<ListData>
    requires cmp.CmpComplex? ==> res != null
    reads res
  {
    if cmp.CmpComplex? then res.computed else multiset{}
  }

  lemma ExtendsPair(m: Mode, v: map<ListHead, Item>, w: map<ListHead, Item>, p: ListHead, q: ListHead)
    requires p in v && q in v && v.Keys == w.Keys && forall x | x in v && x != p && x != q :: w[x] == v[x]
    requires Updated(m, v[p], w[p]) && Updated(m, v[q], w[q])
    ensures Extends(m, v, w)
  {
    hide Updated;
    UnchangedIsUpdated(m);
  }

  /** Compares the cells at the heads of two runs; no other cell's item changes. */
  method CompareHeads(cmp: Cmp, p: ListHead, q: ListHead, res: CoreResults?,
                      ghost s: seq<ListHead>, ghost info: map<ListHead, ListData>, ghost ds: set<ListData>,
                      ghost v: map<ListHead, Item>)
    returns (r: int, ghost w: map<ListHead, Item>)
    requires cmp.CmpComplex? ==> res != null
    requires cmp.CmpBy? ==> TotalPreorder(cmp.compare)
    requires p in s && q in s && p != q && Holds(s, info, ds, v)
    modifies ds`data16, if cmp.CmpComplex? then {res} else {}
    ensures Holds(s, info, ds, w) && Extends(ModeOf(cmp, res), v, w)
    ensures var m := ModeOf(cmp, res);
      && (r <= 0 <==> Key(m, w[p]) <= Key(m, w[q])) && Settled(m, w[p].data16) && Settled(m, w[q].data16)
    ensures cmp.CmpComplex? ==> ComputedOnce(s, info, v, w, old(Computed(cmp, res)), Computed(cmp, res))
  {
    hide Updated, Settled, Key, TotalPreorder, Extends, ComputedOnce;
    ghost var a, b := p.info, q.info;
    r := Compare(cmp, p.info, q.info, res);
    w := v[p := ItemOf(a)][q := ItemOf(b)];
    ExtendsPair(ModeOf(cmp, res), v, w, p, q);
    if cmp.CmpBy? {
      KeyAgrees(cmp.compare, w[p], w[q]);
    }
    if cmp.CmpComplex? {
      PairComputed(s, info, v, w, p, q, old(Computed(cmp, res)), Computed(cmp, res));
    }
  }

  /** Links e behind the tail. */
  method Append(list: ListHead?, tail: ListHead?, e: ListHead, fromP: bool,
                ghost s: seq<ListHead>, ghost info: map<ListHead, ListData>, ghost ds: set<ListData>,
                ghost v: map<ListHead, Item>, ghost out: seq<ListHead>, ghost pi: nat, ghost mid: nat, ghost qj: nat)
    returns (newList: ListHead)
    requires Merging(s, out, list, tail, pi, mid, qj) && Holds(s, info, ds, v)
    requires if fromP then pi < mid && e == s[pi] else qj < |s| && e == s[qj]
    modifies s`next
    ensures Merging(s, out + [e], newList, e, if fromP then pi + 1 else pi, mid, if fromP then qj else qj + 1)
    ensures Holds(s, info, ds, v)
  {
    if tail != null {
      assert tail in out;
      tail.next := e;
      newList := list;
    } else {
      newList := e;
    }
    assert e !in out;
    forall i | 0 <= i < |out| ensures NextIs(out + [e], i) {
      if i < |out| - 1 {
        assert old(NextIs(out, i));
      }
    }
    forall k | pi <= k < mid || qj <= k < |s| ensures NextIs(s, k) {
      assert old(NextIs(s, k));
    }
  }

  /** Decides which run gives the next cell of the merge. */
  method Choose(cmp: Cmp, res: CoreResults?, p: ListHead?, q: ListHead?, psize: nat, qsize: nat,
                ghost s: seq<ListHead>, ghost info: map<ListHead, ListData>, ghost ds: set<ListData>,
                ghost v: map<ListHead, Item>, ghost out: seq<ListHead>, ghost rank: map<ListHead, nat>,
                ghost a: nat, ghost pi: nat, ghost mid: nat, ghost qj: nat, ghost qend: nat)
    returns (fromP: bool, ghost w: map<ListHead, Item>)
    requires cmp.CmpComplex? ==> res != null
    requires cmp.CmpBy? ==> TotalPreorder(cmp.compare)
    requires MergeOrder(ModeOf(cmp, res), v, rank, s, out, a, pi, mid, qj, qend)
    requires a < mid && (pi < mid || qj < qend) && |out| == pi + (qj - mid)
    requires Distinct(s) && Holds(s, info, ds, v)
    requires psize == mid - pi && (pi < mid ==> p == s[pi])
    requires (qsize > 0 && q != null <==> qj < qend) && (qj < qend ==> q == s[qj])
    modifies ds`data16, if cmp.CmpComplex? then {res} else {}
    ensures if fromP then pi < mid else qj < qend
    ensures Holds(s, info, ds, w) && Extends(ModeOf(cmp, res), v, w)
    ensures MergeOrder(ModeOf(cmp, res), w, rank, s, out + [if fromP then s[pi] else s[qj]], a,
                       if fromP then pi + 1 else pi, mid, if fromP then qj else qj + 1, qend)
    ensures cmp.CmpComplex? ==> ComputedOnce(s, info, v, w, old(Computed(cmp, res)), Computed(cmp, res))
  {
    ghost var m := ModeOf(cmp, res);
    w := v;
    if psize == 0 {
      fromP := false;
    } else if qsize == 0 || q == null {
      fromP := true;
    } else {
      var r;
      r, w := CompareHeads(cmp, p, q, res, s, info, ds, v);
      MergeOrderKept(m, v, w, rank, s, out, a, pi, mid, qj, qend);
      HeadsSettle(m, w, rank, s, out, a, pi, mid, qj, qend);
      fromP := r <= 0;
    }
    if fromP {
      TakeP(m, w, rank, s, out, a, pi, mid, qj, qend);
    } else {
      TakeQ(m, w, rank, s, out, a, pi, mid, qj, qend);
    }
  }

  lemma Linked(s: seq<ListHead>, out: seq<ListHead>, list: ListHead?, tail: ListHead?, pi: nat, mid: nat, qj: nat)
    requires Merging(s, out, list, tail, pi, mid, qj)
    ensures pi <= mid <= qj <= |s| && |out| == pi + (qj - mid) && Distinct(s)
    ensures pi < mid ==> s[pi].next == if pi + 1 < |s| then s[pi + 1] else null
    ensures qj < |s| ==> s[qj].next == if qj + 1 < |s| then s[qj + 1] else null
  {
    assert pi < mid ==> NextIs(s, pi);
    assert qj < |s| ==> NextIs(s, qj);
  }

  /** One round of the inner loop: moves one cell from a run to the merged list. */
  method MergeStep(cmp: Cmp, res: CoreResults?, list0: ListHead?, tail: ListHead?, p0: ListHead?, q0: ListHead?,
                   psize0: nat, qsize0: nat,
                   ghost s: seq<ListHead>, ghost info: map<ListHead, ListData>, ghost ds: set<ListData>,
                   ghost v: map<ListHead, Item>, ghost out: seq<ListHead>, ghost rank: map<ListHead, nat>,
                   ghost a: nat, ghost pi: nat, ghost mid: nat, ghost qj: nat, ghost qend: nat)
    returns (list: ListHead, e: ListHead, p: ListHead?, q: ListHead?, psize: nat, qsize: nat,
             ghost pi': nat, ghost qj': nat, ghost out': seq<ListHead>, ghost w: map<ListHead, Item>)
    requires cmp.CmpComplex? ==> res != null
    requires cmp.CmpBy? ==> TotalPreorder(cmp.compare)
    requires Merging(s, out, list0, tail, pi, mid, qj)
    requires MergeOrder(ModeOf(cmp, res), v, rank, s, out, a, pi, mid, qj, qend)
    requires a < mid && (pi < mid || qj < qend) && qj <= qend && Holds(s, info, ds, v)
    requires psize0 == mid - pi && (pi < mid ==> p0 == s[pi])
    requires q0 == (if qj < |s| then s[qj] else null) && (qsize0 > 0 && q0 != null <==> qj < qend)
    modifies s`next, ds`data16, if cmp.CmpComplex? then {res} else {}
    ensures pi <= pi' <= mid && qj <= qj' <= qend && pi' + qj' == pi + qj + 1
    ensures psize == mid - pi' && qsize == qsize0 - (qj' - qj)
    ensures out' == out + [e] && |out'| == pi' + (qj' - mid)
    ensures Merging(s, out', list, e, pi', mid, qj')
    ensures MergeOrder(ModeOf(cmp, res), w, rank, s, out', a, pi', mid, qj', qend)
    ensures (pi' < mid ==> p == s[pi']) && q == (if qj' < |s| then s[qj'] else null)
    ensures Holds(s, info, ds, w) && Extends(ModeOf(cmp, res), v, w)
    ensures cmp.CmpComplex? ==> ComputedOnce(s, info, v, w, old(Computed(cmp, res)), Computed(cmp, res))
  {
    hide MergeOrder, Holds, ComputedOnce, Extends, Merging, NextIs;
    Linked(s, out, list0, tail, pi, mid, qj);
    var fromP;
    fromP, w := Choose(cmp, res, p0, q0, psize0, qsize0, s, info, ds, v, out, rank, a, pi, mid, qj, qend);
    p, q, psize, qsize, pi', qj' := p0, q0, psize0, qsize0, pi, qj;
    if fromP {
      e := p; p := p.next; psize := psize - 1; pi' := pi + 1;
    } else {
      e := q; q := q.next; qsize := qsize - 1; qj' := qj + 1;
    }
    list := Append(list0, tail, e, fromP, s, info, ds, w, out, pi, mid, qj);
    out' := out + [e];
  }

  /** The inner loop of the sort: merges the run at p with the run at q. */
  method MergeRuns(cmp: Cmp, res: CoreResults?, list0: ListHead?, tail0: ListHead?, p0: ListHead, q0: ListHead?,
                   psize0: nat, insize: nat,
                   ghost s: seq<ListHead>, ghost info: map<ListHead, ListData>, ghost ds: set<ListData>,
                   ghost v0: map<ListHead, Item>,
                   ghost out0: seq<ListHead>, ghost rank: map<ListHead, nat>, ghost a: nat, ghost mid: nat,
                   ghost qend: nat)
    returns (list: ListHead?, tail: ListHead?, q: ListHead?, ghost out: seq<ListHead>, ghost v: map<ListHead, Item>)
    requires cmp.CmpComplex? ==> res != null
    requires cmp.CmpBy? ==> TotalPreorder(cmp.compare)
    requires insize > 0 && a < |s| && mid == Min(a + insize, |s|) && qend == Min(mid + insize, |s|) && psize0 == mid - a
    requires Merging(s, out0, list0, tail0, a, mid, mid) && |out0| == a && p0 == s[a]
    requires q0 == (if mid < |s| then s[mid] else null)
    requires Holds(s, info, ds, v0) && Covers(v0, rank, s) && Covers(v0, rank, out0)
    requires Run(ModeOf(cmp, res), v0, rank, s, a, mid) && Run(ModeOf(cmp, res), v0, rank, s, mid, qend)
    modifies s`next, ds`data16, if cmp.CmpComplex? then {res} else {}
    ensures Merging(s, out, list, tail, qend, qend, qend) && out0 <= out
    ensures q == (if qend < |s| then s[qend] else null)
    ensures Holds(s, info, ds, v) && Extends(ModeOf(cmp, res), v0, v)
    ensures Covers(v, rank, out) && Run(ModeOf(cmp, res), v, rank, out, a, qend)
    ensures cmp.CmpComplex? ==> ComputedOnce(s, info, v0, v, old(Computed(cmp, res)), Computed(cmp, res))
  {
    hide MergeOrder, Run, Holds, Extends, ComputedOnce, Merging;
    ghost var m := ModeOf(cmp, res);
    ghost var c0 := Computed(cmp, res);
    ghost var pi, qj := a, mid;
    list, tail, q, out, v := list0, tail0, q0, out0, v0;
    var p: ListHead? := p0;
    var psize, qsize := psize0, insize;
    MergeStarts(m, v, rank, s, out, a, mid, qend);
    NothingComputed(m, s, info, v, c0);
    AllCovered(s, info, ds, v);
    while psize > 0 || (qsize > 0 && q != null)
      invariant a <= pi <= mid <= qj <= qend && psize == mid - pi && qsize == insize - (qj - mid)
      invariant pi < mid ==> p == s[pi]
      invariant q == (if qj < |s| then s[qj] else null)
      invariant Merging(s, out, list, tail, pi, mid, qj) && out0 <= out && |out| == pi + (qj - mid)
      invariant Holds(s, info, ds, v) && Extends(m, v0, v)
      invariant MergeOrder(m, v, rank, s, out, a, pi, mid, qj, qend)
      invariant cmp.CmpComplex? ==> ComputedOnce(s, info, v0, v, c0, Computed(cmp, res))
      decreases psize + qend - qj
    {
      ghost var u, c1 := v, Computed(cmp, res);
      list, tail, p, q, psize, qsize, pi, qj, out, v :=
        MergeStep(cmp, res, list, tail, p, q, psize, qsize, s, info, ds, v, out, rank, a, pi, mid, qj, qend);
      ExtendsTransitive(m, v0, u, v);
      if cmp.CmpComplex? {
        ComputedTransitive(s, info, v0, u, v, c0, c1, Computed(cmp, res));
      }
    }
    MergeEnds(m, v, rank, s, out, a, mid, qend);
    AllMerged(s, out, list, tail, mid, qend);
  }

  lemma AllMerged(s: seq<ListHead>, out: seq<ListHead>, list: ListHead?, tail: ListHead?, mid: nat, qend: nat)
    requires Merging(s, out, list, tail, mid, mid, qend)
    ensures Merging(s, out, list, tail, qend, qend, qend)
  {
  }

  lemma NothingComputed(m: Mode, s: seq<ListHead>, info: map<ListHead, ListData>, v: map<ListHead, Item>,
                        c: multiset<ListData>)
    ensures Extends(m, v, v)
    ensures Known(s, info, v) ==> ComputedOnce(s, info, v, v, c, c)
  {
  }

  ghost predicate Known(s: seq<ListHead>, info: map<ListHead, ListData>, v: map<ListHead, Item>) {
    forall x | x in s :: x in info && x in v
  }

  lemma AllCovered(s: seq<ListHead>, info: map<ListHead, ListData>, ds: set<ListData>, v: map<ListHead, Item>)
    requires Holds(s, info, ds, v)
    ensures Known(s, info, v)
  {
  }

  /** Steps insize places along from p. */
  method StepAlong(p: ListHead, insize: nat, ghost s: seq<ListHead>, ghost a: nat) returns (q: ListHead?, psize: nat)
    requires insize > 0 && a < |s| && p == s[a]
    requires forall k {:trigger NextIs(s, k)} | a <= k < |s| :: NextIs(s, k)
    ensures psize == Min(a + insize, |s|) - a
    ensures q == if a + psize < |s| then s[a + psize] else null
  {
    q := p;
    psize := 0;
    while psize < insize && q != null
      invariant psize <= insize && a + psize <= |s| && psize <= insize
      invariant q == if a + psize < |s| then s[a + psize] else null
    {
      assert NextIs(s, a + psize);
      psize := psize + 1;
      q := q.next;
    }
  }

  /** One round of a pass: finds the next two runs and merges them. */
  method PassRound(cmp: Cmp, res: CoreResults?, head0: ListHead?, tail0: ListHead?, p0: ListHead, insize: nat,
                   ghost s: seq<ListHead>, ghost info: map<ListHead, ListData>, ghost ds: set<ListData>,
                   ghost v0: map<ListHead, Item>, ghost rank: map<ListHead, nat>, ghost out0: seq<ListHead>,
                   ghost a: nat, ghost b: nat)
    returns (head: ListHead?, tail: ListHead?, p: ListHead?, ghost out: seq<ListHead>, ghost v: map<ListHead, Item>,
             ghost a': nat, ghost b': nat)
    requires cmp.CmpComplex? ==> res != null
    requires cmp.CmpBy? ==> TotalPreorder(cmp.compare)
    requires insize > 0 && a < |s| && |out0| == a && p0 == s[a] && Merging(s, out0, head0, tail0, a, a, a)
    requires PassOrder(ModeOf(cmp, res), v0, rank, s, out0, a, b, insize) && Holds(s, info, ds, v0)
    modifies s`next, ds`data16, if cmp.CmpComplex? then {res} else {}
    ensures a' == Min(a + 2 * insize, |s|) && |out| == a' && p == (if a' < |s| then s[a'] else null)
    ensures Merging(s, out, head, tail, a', a', a') && PassOrder(ModeOf(cmp, res), v, rank, s, out, a', b', insize)
    ensures Holds(s, info, ds, v) && Extends(ModeOf(cmp, res), v0, v)
    ensures cmp.CmpComplex? ==> ComputedOnce(s, info, v0, v, old(Computed(cmp, res)), Computed(cmp, res))
  {
    hide PassOrder, Run, RunsFrom, RunsUpTo, Holds, Extends, ComputedOnce, Merging, IsList, SameCells, Covers, NextIs;
    hide Distinct, TotalPreorder;
    ghost var m, mid := ModeOf(cmp, res), Min(a + insize, |s|);
    a' := Min(mid + insize, |s|);
    StillLinked(s, out0, head0, tail0, a);
    var q, psize := StepAlong(p0, insize, s, a);
    PassRuns(m, v0, rank, s, out0, a, b, insize);
    RunSplit(s, out0, head0, tail0, a, mid);
    head, tail, p, out, v :=
      MergeRuns(cmp, res, head0, tail0, p0, q, psize, insize, s, info, ds, v0, out0, rank, a, mid, a');
    MergedLength(s, out, head, tail, a');
    PassStep(m, v0, v, rank, s, out0, out, a, b, a', insize);
    b' := if a' == a + 2 * insize then a' else a;
  }

  /** One pass over the list, merging pairs of runs of size insize. */
  method MergePass(cmp: Cmp, res: CoreResults?, p0: ListHead, insize: nat,
                   ghost s: seq<ListHead>, ghost info: map<ListHead, ListData>, ghost ds: set<ListData>,
                   ghost v0: map<ListHead, Item>, ghost rank: map<ListHead, nat>)
    returns (list: ListHead, nmerges: nat, ghost out: seq<ListHead>, ghost v: map<ListHead, Item>)
    requires cmp.CmpComplex? ==> res != null
    requires cmp.CmpBy? ==> TotalPreorder(cmp.compare)
    requires insize > 0 && s != [] && p0 == First(s) && IsList(p0, s) && Holds(s, info, ds, v0) && Covers(v0, rank, s)
    requires RunsFrom(ModeOf(cmp, res), v0, rank, s, 0, insize)
    modifies s`next, ds`data16, if cmp.CmpComplex? then {res} else {}
    ensures IsList(list, out) && SameCells(s, out) && list == First(out)
    ensures Holds(out, info, ds, v) && Extends(ModeOf(cmp, res), v0, v)
    ensures Covers(v, rank, out) && RunsFrom(ModeOf(cmp, res), v, rank, out, 0, 2 * insize)
    ensures nmerges <= 1 ==> Run(ModeOf(cmp, res), v, rank, out, 0, |out|)
    ensures nmerges > 1 ==> 2 * insize < |s|
    ensures cmp.CmpComplex? ==> ComputedOnce(s, info, v0, v, old(Computed(cmp, res)), Computed(cmp, res))
  {
    hide PassOrder, Run, RunsFrom, RunsUpTo, Holds, Extends, ComputedOnce, Merging, IsList, SameCells, Covers, NextIs;
    hide Distinct, TotalPreorder;
    ghost var m := ModeOf(cmp, res);
    ghost var c0 := Computed(cmp, res);
    ghost var a: nat, b: nat := 0, 0;
    out, v := [], v0;
    var p: ListHead? := p0;
    var head: ListHead? := null;
    var tail: ListHead? := null;
    nmerges := 0;
    PassStarts(m, v, rank, s, insize);
    NothingMerged(s, p0);
    AllCovered(s, info, ds, v);
    NothingComputed(m, s, info, v, c0);
    while p != null
      invariant a <= |s| && |out| == a && p == (if a < |s| then s[a] else null)
      invariant Merging(s, out, head, tail, a, a, a)
      invariant PassOrder(m, v, rank, s, out, a, b, insize)
      invariant Holds(s, info, ds, v) && Extends(m, v0, v)
      invariant cmp.CmpComplex? ==> ComputedOnce(s, info, v0, v, c0, Computed(cmp, res))
      invariant (nmerges == 0 <==> a == 0) && (nmerges == 1 ==> a == Min(2 * insize, |s|))
      invariant nmerges > 1 ==> a > 2 * insize
      decreases |s| - a
    {
      ghost var u, c1 := v, Computed(cmp, res);
      nmerges := nmerges + 1;
      head, tail, p, out, v, a, b := PassRound(cmp, res, head, tail, p, insize, s, info, ds, v, rank, out, a, b);
      ExtendsTransitive(m, v0, u, v);
      if cmp.CmpComplex? {
        ComputedTransitive(s, info, v0, u, v, c0, c1, Computed(cmp, res));
      }
    }
    list := Finish(s, out, info, ds, v, head, tail);
    PassEnds(m, v, rank, s, out, b, insize);
  }

  /** Terminates the merged list. */
  method Finish(ghost s: seq<ListHead>, ghost out: seq<ListHead>, ghost info: map<ListHead, ListData>,
                ghost ds: set<ListData>,
                ghost v: map<ListHead, Item>, head: ListHead?, tail: ListHead?) returns (list: ListHead)
    requires s != [] && Merging(s, out, head, tail, |s|, |s|, |s|) && Holds(s, info, ds, v)
    modifies s`next
    ensures IsList(list, out) && SameCells(s, out) && Holds(out, info, ds, v) && list == First(out)
  {
    assert tail in out;
    tail.next := null;
    list := head;
    forall i | 0 <= i < |out| ensures NextIs(out, i) {
      if i < |out| - 1 {
        assert old(NextIs(out, i));
      }
    }
    AllOut(s, out);
  }

  lemma AllOut(s: seq<ListHead>, out: seq<ListHead>)
    requires Distinct(s) && Distinct(out) && |out| == |s| && forall x | x in out :: x in s
    ensures SameCells(s, out)
  {
    var cells, done := set x | x in s, set x | x in out;
    CountDistinct(s);
    CountDistinct(out);
    assert done <= cells;
    assert |cells - done| == 0;
    assert done == cells;
    forall x | x in s ensures x in out {
      assert x in cells;
    }
  }

  lemma {:induction false} CountDistinct(s: seq<ListHead>)
    requires Distinct(s)
    ensures |set x | x in s| == |s|
    decreases |s|
  {
    if s == [] {
      assert (set x | x in s) == {};
    } else {
      CountDistinct(s[1..]);
      assert (set x | x in s) == {s[0]} + set x | x in s[1..];
      assert s[0] !in s[1..];
    }
  }

  lemma NothingMerged(s: seq<ListHead>, list: ListHead)
    requires IsList(list, s)
    ensures Merging(s, [], null, null, 0, 0, 0)
  {
  }

  lemma StillLinked(s: seq<ListHead>, out: seq<ListHead>, list: ListHead?, tail: ListHead?, a: nat)
    requires Merging(s, out, list, tail, a, a, a)
    ensures forall k {:trigger NextIs(s, k)} | a <= k < |s| :: NextIs(s, k)
  {
  }

  lemma RunSplit(s: seq<ListHead>, out: seq<ListHead>, list: ListHead?, tail: ListHead?, a: nat, mid: nat)
    requires Merging(s, out, list, tail, a, a, a) && a <= mid <= |s|
    ensures Merging(s, out, list, tail, a, mid, mid)
  {
  }

  lemma MergedLength(s: seq<ListHead>, out: seq<ListHead>, list: ListHead?, tail: ListHead?, a: nat)
    requires Merging(s, out, list, tail, a, a, a)
    ensures |out| == a <= |s|
  {
  }

  /** core_list_mergesort: for every non-empty list it terminates with an acyclic
      list of exactly the same cells, sorted, stable, and with every item settled;
      with cmp_complex every value has been computed exactly once. */
  method Mergesort(list0: ListHead, cmp: Cmp, res: CoreResults?,
                   ghost s0: seq<ListHead>, ghost info: map<ListHead, ListData>, ghost ds: set<ListData>,
                   ghost v0: map<ListHead, Item>)
    returns (list: ListHead, ghost s: seq<ListHead>, ghost v: map<ListHead, Item>)
    requires cmp.CmpComplex? ==> res != null
    requires cmp.CmpBy? ==> TotalPreorder(cmp.compare)
    requires s0 != [] && IsList(list0, s0) && Holds(s0, info, ds, v0)
    modifies s0`next, ds`data16, if cmp.CmpComplex? then {res} else {}
    ensures IsList(list, s) && Holds(s, info, ds, v) && Extends(ModeOf(cmp, res), v0, v)
    ensures StablySorted(ModeOf(cmp, res), v, s0, s)
    ensures cmp.CmpBy? ==> v == v0 && SortedBy(cmp.compare, v0, s0, s)
    ensures cmp.CmpComplex? ==> ComputedOnce(s0, info, v0, v, old(Computed(cmp, res)), Computed(cmp, res))
  {
    hide Run, RunsFrom, Holds, Extends, ComputedOnce, IsList, StablySorted, NextIs, TotalPreorder, SortedBy;
    ghost var m := ModeOf(cmp, res);
    ghost var c0 := Computed(cmp, res);
    OneList(list0, s0);
    ghost var rank := Ranks(s0);
    list, s, v := list0, s0, v0;
    AllCovered(s, info, ds, v);
    NothingComputed(m, s, info, v, c0);
    Singletons(m, v, rank, s, 0);
    var insize := 1;
    while true
      invariant 0 < insize <= |s0|
      invariant IsList(list, s) && SameCells(s0, s) && list == First(s)
      invariant Holds(s, info, ds, v) && Extends(m, v0, v)
      invariant Covers(v, rank, s) && RunsFrom(m, v, rank, s, 0, insize)
      invariant cmp.CmpComplex? ==> ComputedOnce(s0, info, v0, v, c0, Computed(cmp, res))
      decreases |s0| - insize
    {
      ghost var u, c1, t := v, Computed(cmp, res), s;
      var nmerges;
      list, nmerges, s, v := MergePass(cmp, res, list, insize, s, info, ds, v, rank);
      SameCellsTransitive(s0, t, s);
      ExtendsTransitive(m, v0, u, v);
      if cmp.CmpComplex? {
        ComputedSameCells(s0, t, info, u, v, c1, Computed(cmp, res));
        ComputedTransitive(s0, info, v0, u, v, c0, c1, Computed(cmp, res));
      }
      if nmerges <= 1 {
        CoversSame(v, rank, s0, s);
        RunIsSort(m, v, rank, s0, s);
        if cmp.CmpBy? {
          SortedByCompare(cmp.compare, v0, v, s0, s);
        }
        return;
      }
      insize := 2 * insize;
    }
  }

  /** t is s sorted by a comparator, ties in the order of s. */
  ghost predicate SortedBy(compare: (Item, Item) -> int, v: map<ListHead, Item>, s: seq<ListHead>, t: seq<ListHead>) {
    && SameCells(s, t) && (forall c | c in s :: c in v)
    && (forall i, j | 0 <= i < j < |t| && t[i] in v && t[j] in v :: compare(v[t[i]], v[t[j]]) <= 0)
    && (forall a, b | 0 <= a < b < |s| && compare(v[s[a]], v[s[b]]) <= 0 && compare(v[s[b]], v[s[a]]) <= 0 ::
          Ahead(t, s[a], s[b]))
  }

  lemma SortedByCompare(compare: (Item, Item) -> int, v0: map<ListHead, Item>, v: map<ListHead, Item>,
                        s: seq<ListHead>, t: seq<ListHead>)
    requires TotalPreorder(compare) && Extends(ByOrder(compare), v0, v) && StablySorted(ByOrder(compare), v, s, t)
    ensures v == v0 && SortedBy(compare, v0, s, t)
  {
    hide TotalPreorder, Key;
    var m := ByOrder(compare);
    forall i, j | 0 <= i < j < |t| ensures t[i] in v && t[j] in v && compare(v[t[i]], v[t[j]]) <= 0 {
      assert Key(m, v[t[i]]) <= Key(m, v[t[j]]);
      KeyAgrees(compare, v[t[i]], v[t[j]]);
    }
    forall c | c in s ensures c in v {
      assert c in t;
    }
    forall a, b | 0 <= a < b < |s| && compare(v[s[a]], v[s[b]]) <= 0 && compare(v[s[b]], v[s[a]]) <= 0
      ensures Ahead(t, s[a], s[b])
    {
      KeyAgrees(compare, v[s[a]], v[s[b]]);
      KeyAgrees(compare, v[s[b]], v[s[a]]);
    }
  }

  ghost function Ranks(s: seq<ListHead>): (rank: map<ListHead, nat>)
    requires Distinct(s)
    ensures forall i | 0 <= i < |s| :: s[i] in rank && rank[s[i]] == i
  {
    map x | x in s :: var i :| 0 <= i < |s| && s[i] == x; i
  }

  lemma OneList(list: ListHead?, s: seq<ListHead>)
    requires IsList(list, s)
    ensures Distinct(s) && list == First(s)
  {
  }

  lemma SameCellsTransitive(r: seq<ListHead>, s: seq<ListHead>, t: seq<ListHead>)
    requires SameCells(r, s) && SameCells(s, t)
    ensures SameCells(r, t)
  {
  }

  lemma CoversSame(v: map<ListHead, Item>, rank: map<ListHead, nat>, s: seq<ListHead>, t: seq<ListHead>)
    requires SameCells(s, t) && Covers(v, rank, t)
    ensures Covers(v, rank, s)
  {
    forall i | 0 <= i < |s| ensures s[i] in v && s[i] in rank {
      assert s[i] in t;
    }
  }

  lemma ComputedSameCells(s: seq<ListHead>, t: seq<ListHead>, info: map<ListHead, ListData>,
                          v: map<ListHead, Item>, w: map<ListHead, Item>, c0: multiset<ListData>,
                          c1: multiset<ListData>)
    requires SameCells(s, t) && ComputedOnce(t, info, v, w, c0, c1)
    ensures ComputedOnce(s, info, v, w, c0, c1)
  {
  }
}