/** What the list sort of CoreMark establishes, stated on values: items, the two
    comparison modes, and runs of cells that are already in order.  Cells are an
    arbitrary type here; their contents are given by a map, the `view`. */
module SortOrder {
  import opened Basics

  /** The 16 bits of an ee_s16, read as an unsigned number. */
  type Word = x: int | 0 <= x < 0x10000

  /** An ee_s16 that is compared as a signed number. */
  type Short = x: int | -0x8000 <= x < 0x8000

  datatype Item = Item(data16: Word, idx: Short)

  function High(d: Word): nat { d / 256 }
  function Low(d: Word): nat { d % 256 }

  /** Bit 7: the low seven bits are a cached result. */
  predicate Cached(d: Word) { Low(d) >= 128 }

  /** Bits 0-2 select the operation; 2 to 7 just take the data itself. */
  function Flag(d: Word): nat { d % 8 }

  /** The item after its value v has been cached: the high byte is kept. */
  function WithCache(d: Word, v: nat): (r: Word)
    requires v < 128
    ensures High(r) == High(d) && Cached(r) && r % 128 == v
  {
    High(d) * 256 + 128 + v
  }

  /** The item after cmp_idx has copied its high byte over its low byte. */
  function Regenerated(d: Word): (r: Word)
    ensures High(r) == High(d) == Low(r) && (Low(d) == High(d) ==> r == d)
  {
    High(d) * 256 + High(d)
  }

  /** cmp_complex, cmp_idx with or without its regeneration of the data, or any other
      comparator that only looks at the items. */
  datatype Mode = ByValue | ByIdx(regenerate: bool) | ByOrder(compare: (Item, Item) -> int)

  /** The sort asks only whether a comparison is at most 0: that must be a total
      preorder. */
  ghost predicate TotalPreorder(compare: (Item, Item) -> int) {
    && (forall a, b :: compare(a, b) <= 0 || compare(b, a) <= 0)
    && (forall a, b, c :: compare(a, b) <= 0 && compare(b, c) <= 0 ==> compare(a, c) <= 0)
  }

  /** All items that come before this one.  There are finitely many items. */
  ghost function Below(compare: (Item, Item) -> int, it: Item): set<Item> {
    set d: int, i: int | 0 <= d < 0x10000 && -0x8000 <= i < 0x8000 && compare(it, Item(d, i)) > 0 :: Item(d, i)
  }

  /** So every total preorder on items has a key: the number of items before. */
  lemma KeyAgrees(compare: (Item, Item) -> int, a: Item, b: Item)
    requires TotalPreorder(compare)
    ensures compare(a, b) <= 0 <==> Key(ByOrder(compare), a) <= Key(ByOrder(compare), b)
  {
    if compare(a, b) <= 0 {
      BelowGrows(compare, a, b);
      SubsetSize(Below(compare, a), Below(compare, b));
    } else {
      BelowGrows(compare, b, a);
      assert b in Below(compare, a) by { assert b == Item(b.data16, b.idx); }
      assert b !in Below(compare, b);
      SubsetSize(Below(compare, b), Below(compare, a) - {b});
    }
  }

  lemma BelowGrows(compare: (Item, Item) -> int, a: Item, b: Item)
    requires TotalPreorder(compare) && compare(a, b) <= 0
    ensures Below(compare, a) <= Below(compare, b)
  {
  }

  lemma SubsetSize(x: set<Item>, y: set<Item>)
    requires x <= y
    ensures |x| <= |y|
  {
    assert y == x + (y - x);
  }

  /** A comparison in this mode leaves the item alone. */
  predicate Settled(m: Mode, d: Word) {
    match m
    case ByValue => Cached(d)
    case ByIdx(regenerate) => regenerate ==> Low(d) == High(d)
    case ByOrder(_) => true
  }

  ghost function Key(m: Mode, it: Item): int {
    match m
    case ByValue => it.data16 % 128
    case ByIdx(_) => it.idx
    case ByOrder(compare) => |Below(compare, it)|
  }

  /** What comparisons may do to one item: settle it, keep its index and its high
      byte, and never touch it again. */
  ghost predicate Updated(m: Mode, before: Item, after: Item) {
    && after.idx == before.idx
    && High(after.data16) == High(before.data16)
    && (after == before || (!Settled(m, before.data16) && Settled(m, after.data16)))
    && (m.ByValue? && Flag(before.data16) >= 2 ==> after.data16 % 128 == before.data16 % 128)
  }

  lemma UnchangedIsUpdated(m: Mode)
    ensures forall it :: Updated(m, it, it)
  {
  }

  ghost predicate Extends<T>(m: Mode, v: map<T, Item>, w: map<T, Item>) {
    v.Keys == w.Keys && forall x | x in v :: Updated(m, v[x], w[x])
  }

  lemma ExtendsTransitive<T>(m: Mode, u: map<T, Item>, v: map<T, Item>, w: map<T, Item>)
    requires Extends(m, u, v) && Extends(m, v, w)
    ensures Extends(m, u, w)
  {
  }

  ghost predicate Distinct<T>(s: seq<T>) {
    forall i, j | 0 <= i < j < |s| :: s[i] != s[j]
  }

  /** Same cells, each once. */
  ghost predicate SameCells<T>(s: seq<T>, t: seq<T>) {
    |s| == |t| && Distinct(s) && Distinct(t) && (forall x | x in s :: x in t) && forall x | x in t :: x in s
  }

  /** The strict order a stable sort produces: by key, ties by first position. */
  ghost predicate Precedes<T>(m: Mode, v: map<T, Item>, rank: map<T, nat>, x: T, y: T)
    requires x in v && y in v && x in rank && y in rank
  {
    Key(m, v[x]) < Key(m, v[y]) || (Key(m, v[x]) == Key(m, v[y]) && rank[x] < rank[y])
  }

  ghost predicate Covers<T>(v: map<T, Item>, rank: map<T, nat>, s: seq<T>) {
    forall i | 0 <= i < |s| :: s[i] in v && s[i] in rank
  }

  ghost predicate AllSettled<T>(m: Mode, v: map<T, Item>, s: seq<T>, a: nat, b: nat)
    requires forall i | 0 <= i < |s| :: s[i] in v
  {
    forall i | a <= i < b && i < |s| :: Settled(m, v[s[i]].data16)
  }

  /** s[a..b) holds the cells that started at positions a..b, in order.  A single
      cell need not be settled: nothing has looked at it yet. */
  ghost predicate Run<T>(m: Mode, v: map<T, Item>, rank: map<T, nat>, s: seq<T>, a: nat, b: nat)
    requires a <= b <= |s| && Covers(v, rank, s)
  {
    && (forall i | a <= i < b :: a <= rank[s[i]] < b)
    && (b - a >= 2 ==> AllSettled(m, v, s, a, b))
    && (forall i, j | a <= i < j < b :: Precedes(m, v, rank, s[i], s[j]))
  }

  /** From position a on, s is cut into runs of the given size. */
  ghost predicate RunsFrom<T>(m: Mode, v: map<T, Item>, rank: map<T, nat>, s: seq<T>, a: nat, size: nat)
    requires size > 0 && Covers(v, rank, s)
    decreases if a < |s| then |s| - a else 0
  {
    a >= |s| || (Run(m, v, rank, s, a, Min(a + size, |s|)) && RunsFrom(m, v, rank, s, a + size, size))
  }

  /** Up to position b, s is cut into full runs of the given size. */
  ghost predicate RunsUpTo<T>(m: Mode, v: map<T, Item>, rank: map<T, nat>, s: seq<T>, b: nat, size: nat)
    requires size > 0 && Covers(v, rank, s) && b <= |s|
    decreases b
  {
    b == 0 || (b >= size && Run(m, v, rank, s, b - size, b) && RunsUpTo(m, v, rank, s, b - size, size))
  }

  lemma RunKept<T>(m: Mode, v: map<T, Item>, w: map<T, Item>, rank: map<T, nat>, s: seq<T>, a: nat, b: nat)
    requires a <= b <= |s| && Covers(v, rank, s) && Extends(m, v, w)
    requires Run(m, v, rank, s, a, b)
    ensures Covers(w, rank, s) && Run(m, w, rank, s, a, b)
  {
    assert Covers(w, rank, s);
    if b - a >= 2 {
      forall i | a <= i < b ensures w[s[i]] == v[s[i]] {
        assert Settled(m, v[s[i]].data16);
      }
    }
  }

  lemma {:induction false} RunsFromKept<T>(m: Mode, v: map<T, Item>, w: map<T, Item>, rank: map<T, nat>, s: seq<T>,
                                           a: nat, size: nat)
    requires size > 0 && Covers(v, rank, s) && Extends(m, v, w)
    requires RunsFrom(m, v, rank, s, a, size)
    ensures Covers(w, rank, s) && RunsFrom(m, w, rank, s, a, size)
    decreases if a < |s| then |s| - a else 0
  {
    assert Covers(w, rank, s);
    if a < |s| {
      RunKept(m, v, w, rank, s, a, Min(a + size, |s|));
      RunsFromKept(m, v, w, rank, s, a + size, size);
    }
  }

  /** Runs of a prefix stay runs when the view is updated and cells are appended. */
  lemma {:induction false} RunsUpToKept<T>(m: Mode, v: map<T, Item>, w: map<T, Item>, rank: map<T, nat>,
                                           s: seq<T>, t: seq<T>, b: nat, size: nat)
    requires size > 0 && Covers(v, rank, s) && b <= |s| && Extends(m, v, w)
    requires Covers(w, rank, t) && s <= t
    requires RunsUpTo(m, v, rank, s, b, size)
    ensures RunsUpTo(m, w, rank, t, b, size)
    decreases b
  {
    if b > 0 {
      RunKept(m, v, w, rank, s, b - size, b);
      assert Run(m, w, rank, t, b - size, b) by {
        assert forall i | b - size <= i < b :: t[i] == s[i];
      }
      RunsUpToKept(m, v, w, rank, s, t, b - size, size);
    }
  }

  lemma {:induction false} RunsJoin<T>(m: Mode, v: map<T, Item>, rank: map<T, nat>, s: seq<T>, b: nat, size: nat)
    requires size > 0 && Covers(v, rank, s) && b <= |s|
    requires RunsUpTo(m, v, rank, s, b, size) && RunsFrom(m, v, rank, s, b, size)
    ensures RunsFrom(m, v, rank, s, 0, size)
    decreases b
  {
    hide Run;
    if b > 0 {
      assert Min(b - size + size, |s|) == b;
      RunsJoin(m, v, rank, s, b - size, size);
    }
  }

  /** Every single cell is a run. */
  lemma {:induction false} Singletons<T>(m: Mode, v: map<T, Item>, rank: map<T, nat>, s: seq<T>, a: nat)
    requires Covers(v, rank, s)
    requires forall i | 0 <= i < |s| :: rank[s[i]] == i
    ensures RunsFrom(m, v, rank, s, a, 1)
    decreases if a < |s| then |s| - a else 0
  {
    if a < |s| {
      Singletons(m, v, rank, s, a + 1);
    }
  }

  // ----- what a sorted list is -------------------------------------------------------

  /** `t` is `s` sorted by key, ties in the order of `s`, all cells settled. */
  ghost predicate StablySorted<T>(m: Mode, v: map<T, Item>, s: seq<T>, t: seq<T>) {
    && SameCells(s, t)
    && (forall i | 0 <= i < |t| :: t[i] in v)
    && (|t| >= 2 ==> AllSettled(m, v, t, 0, |t|))
    && (forall i, j | 0 <= i < j < |t| :: Key(m, v[t[i]]) <= Key(m, v[t[j]]))
    && (forall a, b | 0 <= a < b < |s| && s[a] in v && s[b] in v && Key(m, v[s[a]]) == Key(m, v[s[b]]) ::
          Ahead(t, s[a], s[b]))
  }

  ghost predicate Ahead<T>(t: seq<T>, x: T, y: T) {
    exists i, j :: 0 <= i < j < |t| && t[i] == x && t[j] == y
  }

  /** One run over everything is a stable sort. */
  lemma RunIsSort<T>(m: Mode, v: map<T, Item>, rank: map<T, nat>, s: seq<T>, t: seq<T>)
    requires SameCells(s, t) && Covers(v, rank, t) && Covers(v, rank, s)
    requires forall i | 0 <= i < |s| :: rank[s[i]] == i
    requires Run(m, v, rank, t, 0, |t|)
    ensures StablySorted(m, v, s, t)
  {
    forall a, b | 0 <= a < b < |s| && Key(m, v[s[a]]) == Key(m, v[s[b]])
      ensures Ahead(t, s[a], s[b])
    {
      assert s[a] in t && s[b] in t;
      var i :| 0 <= i < |t| && t[i] == s[a];
      var j :| 0 <= j < |t| && t[j] == s[b];
      assert !(j < i);
    }
  }

  /** Sorting has one result: two arrangements of the same cells that agree with
      the same asymmetric order are equal. */
  lemma {:induction false} OrderIsUnique<T>(before: (T, T) -> bool, s: seq<T>, t: seq<T>)
    requires SameCells(s, t)
    requires forall x, y | x in s && y in s && before(x, y) :: !before(y, x)
    requires forall i, j | 0 <= i < j < |s| :: before(s[i], s[j])
    requires forall i, j | 0 <= i < j < |t| :: before(t[i], t[j])
    ensures s == t
    decreases |s|
  {
    if s != [] {
      assert s[0] in t && t[0] in s;
      var i :| 0 <= i < |s| && s[i] == t[0];
      var j :| 0 <= j < |t| && t[j] == s[0];
      assert i == 0;
      forall x ensures x in s[1..] <==> x in t[1..] {
        InTail(s, x);
        InTail(t, x);
      }
      OrderIsUnique(before, s[1..], t[1..]);
      assert s == [s[0]] + s[1..] && t == [t[0]] + t[1..];
    }
  }

  lemma InTail<T>(s: seq<T>, x: T)
    requires s != [] && Distinct(s)
    ensures x in s[1..] <==> x in s && x != s[0]
  {
    if x in s && x != s[0] {
      var i :| 0 <= i < |s| && s[i] == x;
      assert s[1..][i - 1] == x;
    }
  }

  // ----- merging two runs ---------------------------------------------------------------

  /** The state of one merge: out[a..) has received cells of the runs s[a..mid) and
      s[mid..qend); s[pi..mid) and s[qj..qend) are still waiting. */
  ghost predicate MergeOrder<T>(m: Mode, v: map<T, Item>, rank: map<T, nat>, s: seq<T>, out: seq<T>,
                                a: nat, pi: nat, mid: nat, qj: nat, qend: nat)
  {
    && a <= pi <= mid <= qj <= qend <= |s| && a <= |out| && Covers(v, rank, s) && Covers(v, rank, out)
    && Run(m, v, rank, s, a, mid) && Run(m, v, rank, s, mid, qend)
    && (forall i | a <= i < |out| :: a <= rank[out[i]] < qend)
    && (forall i, j | a <= i < j < |out| :: Precedes(m, v, rank, out[i], out[j]))
    && (forall i, k | a <= i < |out| && pi <= k < mid :: Precedes(m, v, rank, out[i], s[k]))
    && (forall i, k | a <= i < |out| && qj <= k < qend :: Precedes(m, v, rank, out[i], s[k]))
    && (|out| > a && qend - a >= 2 ==> AllSettled(m, v, s, a, qend) && AllSettled(m, v, out, a, |out|))
  }

  lemma MergeOrderKept<T>(m: Mode, v: map<T, Item>, w: map<T, Item>, rank: map<T, nat>, s: seq<T>, out: seq<T>,
                          a: nat, pi: nat, mid: nat, qj: nat, qend: nat)
    requires MergeOrder(m, v, rank, s, out, a, pi, mid, qj, qend) && Extends(m, v, w)
    requires qend - a >= 2
    ensures MergeOrder(m, w, rank, s, out, a, pi, mid, qj, qend)
  {
    RunKept(m, v, w, rank, s, a, mid);
    RunKept(m, v, w, rank, s, mid, qend);
    if |out| > a {
      assert forall i | a <= i < qend :: w[s[i]] == v[s[i]] by {
        assert forall i | a <= i < qend :: Settled(m, v[s[i]].data16);
      }
      assert forall i | a <= i < |out| :: w[out[i]] == v[out[i]] by {
        assert forall i | a <= i < |out| :: Settled(m, v[out[i]].data16);
      }
    }
  }

  /** Once the heads of two non-empty runs are settled, both runs are. */
  lemma HeadsSettle<T>(m: Mode, v: map<T, Item>, rank: map<T, nat>, s: seq<T>, out: seq<T>,
                       a: nat, pi: nat, mid: nat, qj: nat, qend: nat)
    requires MergeOrder(m, v, rank, s, out, a, pi, mid, qj, qend)
    requires pi < mid && qj < qend && |out| == pi + (qj - mid)
    requires Settled(m, v[s[pi]].data16) && Settled(m, v[s[qj]].data16)
    ensures AllSettled(m, v, s, a, qend)
  {
    if |out| == a {
      assert AllSettled(m, v, s, a, mid) && AllSettled(m, v, s, mid, qend);
    }
  }

  lemma TakeP<T>(m: Mode, v: map<T, Item>, rank: map<T, nat>, s: seq<T>, out: seq<T>,
                 a: nat, pi: nat, mid: nat, qj: nat, qend: nat)
    requires MergeOrder(m, v, rank, s, out, a, pi, mid, qj, qend) && pi < mid && |out| == pi + (qj - mid)
    requires qj < qend ==> AllSettled(m, v, s, a, qend) && Key(m, v[s[pi]]) <= Key(m, v[s[qj]])
    requires qj == qend ==> mid == qend || |out| > a
    ensures MergeOrder(m, v, rank, s, out + [s[pi]], a, pi + 1, mid, qj, qend)
  {
    var o := out + [s[pi]];
    assert Covers(v, rank, o);
    assert qend - a >= 2 ==> AllSettled(m, v, s, a, qend);
    forall k | qj <= k < qend ensures Precedes(m, v, rank, s[pi], s[k]) {
      assert k > qj ==> Precedes(m, v, rank, s[qj], s[k]);
    }
  }

  lemma TakeQ<T>(m: Mode, v: map<T, Item>, rank: map<T, nat>, s: seq<T>, out: seq<T>,
                 a: nat, pi: nat, mid: nat, qj: nat, qend: nat)
    requires MergeOrder(m, v, rank, s, out, a, pi, mid, qj, qend) && qj < qend && a < mid && |out| == pi + (qj - mid)
    requires pi < mid ==> AllSettled(m, v, s, a, qend) && Key(m, v[s[qj]]) < Key(m, v[s[pi]])
    ensures MergeOrder(m, v, rank, s, out + [s[qj]], a, pi, mid, qj + 1, qend)
  {
    var o := out + [s[qj]];
    assert Covers(v, rank, o);
    assert AllSettled(m, v, s, a, qend);
    forall k | pi <= k < mid ensures Precedes(m, v, rank, s[qj], s[k]) {
      assert k > pi ==> Precedes(m, v, rank, s[pi], s[k]);
    }
  }

  lemma MergeStarts<T>(m: Mode, v: map<T, Item>, rank: map<T, nat>, s: seq<T>, out: seq<T>, a: nat, mid: nat, qend: nat)
    requires a <= mid <= qend <= |s| && |out| == a && Covers(v, rank, s) && Covers(v, rank, out)
    requires Run(m, v, rank, s, a, mid) && Run(m, v, rank, s, mid, qend)
    ensures MergeOrder(m, v, rank, s, out, a, a, mid, mid, qend)
  {
  }

  lemma MergeEnds<T>(m: Mode, v: map<T, Item>, rank: map<T, nat>, s: seq<T>, out: seq<T>, a: nat, mid: nat, qend: nat)
    requires MergeOrder(m, v, rank, s, out, a, mid, mid, qend, qend) && |out| == qend
    ensures Covers(v, rank, out) && Run(m, v, rank, out, a, qend)
  {
  }

  /** A pass so far: out is cut into runs of twice the size, all full but perhaps
      the last, and the first b cells are the full ones. */
  ghost predicate PassOrder<T>(m: Mode, v: map<T, Item>, rank: map<T, nat>, s: seq<T>, out: seq<T>, a: nat, b: nat,
                               size: nat)
  {
    && size > 0 && Covers(v, rank, s) && Covers(v, rank, out) && b <= |out| == a <= |s|
    && RunsFrom(m, v, rank, s, a, size)
    && RunsUpTo(m, v, rank, out, b, 2 * size) && RunsFrom(m, v, rank, out, b, 2 * size)
    && (a < |s| ==> b == a)
  }

  lemma PassStarts<T>(m: Mode, v: map<T, Item>, rank: map<T, nat>, s: seq<T>, size: nat)
    requires size > 0 && Covers(v, rank, s) && RunsFrom(m, v, rank, s, 0, size)
    ensures PassOrder(m, v, rank, s, [], 0, 0, size)
  {
  }

  lemma PassRuns<T>(m: Mode, v: map<T, Item>, rank: map<T, nat>, s: seq<T>, out: seq<T>, a: nat, b: nat, size: nat)
    requires PassOrder(m, v, rank, s, out, a, b, size) && a < |s|
    ensures Covers(v, rank, s) && Covers(v, rank, out)
    ensures var mid := Min(a + size, |s|); var qend := Min(mid + size, |s|);
      Run(m, v, rank, s, a, mid) && Run(m, v, rank, s, mid, qend)
  {
    var mid := Min(a + size, |s|);
    assert Run(m, v, rank, s, a, mid);
    if mid < |s| {
      assert RunsFrom(m, v, rank, s, mid, size);
    }
  }

  /** Merging two more runs extends the pass. */
  lemma PassStep<T>(m: Mode, v: map<T, Item>, w: map<T, Item>, rank: map<T, nat>, s: seq<T>, out: seq<T>, next: seq<T>,
                    a: nat, b: nat, qend: nat, size: nat)
    requires PassOrder(m, v, rank, s, out, a, b, size) && a < |s| && Extends(m, v, w)
    requires qend == Min(Min(a + size, |s|) + size, |s|) && |next| == qend && out <= next
    requires Covers(w, rank, next) && Run(m, w, rank, next, a, qend)
    ensures PassOrder(m, w, rank, s, next, qend, if qend == a + 2 * size then qend else a, size)
  {
    RunsFromKept(m, v, w, rank, s, a, size);
    RunsUpToKept(m, v, w, rank, out, next, a, 2 * size);
    assert RunsFrom(m, w, rank, s, a + size, size);
    assert RunsFrom(m, w, rank, s, qend, size) by {
      if a + size < |s| {
        assert RunsFrom(m, w, rank, s, a + size + size, size);
      }
    }
    if qend == a + 2 * size {
      assert RunsUpTo(m, w, rank, next, qend, 2 * size);
    } else {
      assert qend == |next| && Min(a + 2 * size, |next|) == qend;
      assert RunsFrom(m, w, rank, next, a + 2 * size, 2 * size);
    }
  }

  lemma PassEnds<T>(m: Mode, v: map<T, Item>, rank: map<T, nat>, s: seq<T>, out: seq<T>, b: nat, size: nat)
    requires PassOrder(m, v, rank, s, out, |s|, b, size)
    ensures Covers(v, rank, out) && RunsFrom(m, v, rank, out, 0, 2 * size)
    ensures 0 < |s| <= 2 * size ==> Run(m, v, rank, out, 0, |out|)
  {
    RunsJoin(m, v, rank, out, b, 2 * size);
  }
}
