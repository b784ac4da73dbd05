/** Packing address space into target sets, with counted runs of equal sets and a
    hint for each size of where to look for room first. */
module MonitorPacking {
  import opened Division
  import opened AlignedBlocks
  import opened AddressRanges
  import opened CidrCover
  import opened FirstFit
  import opened PackedRuns

  const MAXINT := 0x7fff_ffff_ffff_ffff

  /** A number that stops at the largest int. */
  function Cap(n: nat): nat {
    if n > MAXINT then MAXINT else n
  }

  function AddCapped(total: int, n: int): (sum: int)
    ensures 0 <= total <= MAXINT && 0 <= n ==> sum == Cap(total + n)
  {
    if n > MAXINT - total then MAXINT else total + n
  }

  /** Neighbouring sets, by the order in which they open, that have the same room
      left: their number, the place of the first of them, and where the next such
      neighbours are kept, or -1. The first two numbers stop at MAXINT. */
  datatype MonitorRun = MonitorRun(count: int, first: int, free: nat, next: int)

  // ----- The list of runs -----

  /** The runs are linked in an order of their positions. */
  ghost predicate Linked(runs: seq<MonitorRun>, tail: int, order: seq<nat>) {
    && |order| == |runs|
    && (forall j :: 0 <= j < |order| ==> order[j] < |runs|)
    && (forall i, j :: 0 <= i < j < |order| ==> order[i] != order[j])
    && (forall j :: 0 <= j < |order| ==> runs[order[j]].next == Following(order, j))
    && (if order == [] then tail == -1 else order[0] == 0 && tail == order[|order| - 1])
  }

  ghost function Following(order: seq<nat>, j: nat): int {
    if j + 1 < |order| then order[j + 1] else -1
  }

  /** A count that is true, or one that stopped at MAXINT before `splits` were taken. */
  ghost predicate CountsAs(count: int, actual: nat, splits: nat) {
    count == actual || MAXINT - splits <= count < actual
  }

  /** The linked runs stand for the groups of sets. */
  ghost predicate Standing(runs: seq<MonitorRun>, order: seq<nat>, groups: seq<Group>, splits: nat)
    requires forall j :: 0 <= j < |order| ==> order[j] < |runs|
  {
    && |groups| == |order| && NoneEmpty(groups)
    && forall j :: 0 <= j < |order| ==>
         && runs[order[j]].free == groups[j].free
         && CountsAs(runs[order[j]].count, groups[j].count, splits)
         && runs[order[j]].first == Cap(|Expand(groups[..j])|)
  }

  /** Each hint leads to a run before which no set has room for its size. */
  ghost predicate Hinting(firstFit: seq<int>, order: seq<nat>, groups: seq<Group>) {
    && |firstFit| == 64
    && forall k :: 0 <= k < 64 && firstFit[k] != -1 ==> Hinted(firstFit[k], order, groups, Pow2(k))
  }

  ghost predicate Hinted(at: int, order: seq<nat>, groups: seq<Group>, size: nat) {
    exists q: nat :: q < |order| && order[q] == at && NoRoom(groups, q, size)
  }

  // ----- Opening a run -----

  ghost function Extended(runs: seq<MonitorRun>, tail: int, run: MonitorRun): seq<MonitorRun> {
    (if 0 <= tail < |runs| then runs[tail := runs[tail].(next := |runs|)] else runs) + [run]
  }

  lemma {:induction false} OpenLinks(runs: seq<MonitorRun>, tail: int, order: seq<nat>, run: MonitorRun, longer: seq<MonitorRun>)
    requires Linked(runs, tail, order) && run.next == -1
    requires longer == Extended(runs, tail, run)
    ensures Linked(longer, |runs|, order + [|runs|])
    ensures tail >= 0 ==> tail < |runs|
  {
    var next := order + [|runs|];
    forall j | 0 <= j < |next|
      ensures longer[next[j]].next == Following(next, j)
    {
      if j + 1 < |order| {
        assert order[j] != tail;
      }
    }
  }

  lemma {:induction false} OpenStands(runs: seq<MonitorRun>, tail: int, order: seq<nat>, groups: seq<Group>, splits: nat, run: MonitorRun,
                                      g: Group, longer: seq<MonitorRun>)
    requires Linked(runs, tail, order) && Standing(runs, order, groups, splits)
    requires g.count > 0 && run.free == g.free && CountsAs(run.count, g.count, splits) && run.first == Cap(|Expand(groups)|)
    requires longer == Extended(runs, tail, run)
    ensures Standing(longer, order + [|runs|], groups + [g], splits)
  {
    hide Expand, Cap, CountsAs;
    var next, all := order + [|runs|], groups + [g];
    forall j | 0 <= j < |next|
      ensures all[..j] == if j < |order| then groups[..j] else groups
    {
    }
  }

  lemma {:induction false} OpenHints(firstFit: seq<int>, order: seq<nat>, groups: seq<Group>, position: nat, g: Group)
    requires Hinting(firstFit, order, groups)
    ensures Hinting(firstFit, order + [position], groups + [g])
  {
    hide Pow2;
    forall k | 0 <= k < 64 && firstFit[k] != -1
      ensures Hinted(firstFit[k], order + [position], groups + [g], Pow2(k))
    {
      var q: nat :| q < |order| && order[q] == firstFit[k] && NoRoom(groups, q, Pow2(k));
      assert (order + [position])[q] == firstFit[k];
    }
  }

  // ----- Taking room in a run -----

  /** The runs after the run at position order[q] takes a block, its first set first. */
  ghost function RunsTaken(runs: seq<MonitorRun>, at: nat, size: nat): seq<MonitorRun>
    requires at < |runs| && runs[at].free >= size
  {
    var run := runs[at];
    if run.count > 1 then
      (runs + [run.(count := run.count - 1, first := AddCapped(run.first, 1))])[at := run.(count := 1, next := |runs|, free := run.free - size)]
    else
      runs[at := run.(free := run.free - size)]
  }

  ghost function OrderTaken(order: seq<nat>, q: nat, split: bool): seq<nat>
    requires q < |order|
  {
    if split then order[..q + 1] + [|order|] + order[q + 1..] else order
  }

  lemma {:induction false} OrderTakenAt(order: seq<nat>, q: nat, split: bool, j: nat)
    requires q < |order| && j < |OrderTaken(order, q, split)|
    ensures OrderTaken(order, q, split)[j] == if j <= q || !split then order[j] else if j == q + 1 then |order| else order[j - 1]
  {
  }

  lemma {:induction false} TakeLinks(runs: seq<MonitorRun>, tail: int, order: seq<nat>, q: nat, size: nat)
    requires Linked(runs, tail, order) && q < |order| && runs[order[q]].free >= size
    ensures var split := runs[order[q]].count > 1;
            Linked(RunsTaken(runs, order[q], size), if split && tail == order[q] then |runs| else tail, OrderTaken(order, q, split))
  {
    hide Following, OrderTaken, RunsTaken;
    var split := runs[order[q]].count > 1;
    var next, taken := OrderTaken(order, q, split), RunsTaken(runs, order[q], size);
    TakeLengths(runs, order, q, size);
    forall j | 0 <= j < |next|
      ensures next[j] < |taken|
    {
      OrderTakenAt(order, q, split, j);
    }
    forall i, j | 0 <= i < j < |next|
      ensures next[i] != next[j]
    {
      OrderTakenAt(order, q, split, i);
      OrderTakenAt(order, q, split, j);
    }
    forall j | 0 <= j < |next|
      ensures taken[next[j]].next == Following(next, j)
    {
      TakeLink(runs, tail, order, q, size, j);
    }
    OrderTakenAt(order, q, split, 0);
    OrderTakenAt(order, q, split, |next| - 1);
  }

  lemma TakeLengths(runs: seq<MonitorRun>, order: seq<nat>, q: nat, size: nat)
    requires q < |order| == |runs| && order[q] < |runs| && runs[order[q]].free >= size
    ensures |RunsTaken(runs, order[q], size)| == |OrderTaken(order, q, runs[order[q]].count > 1)|
            == |runs| + if runs[order[q]].count > 1 then 1 else 0
  {
  }

  lemma {:induction false} TakeLink(runs: seq<MonitorRun>, tail: int, order: seq<nat>, q: nat, size: nat, j: nat)
    requires Linked(runs, tail, order) && q < |order| && runs[order[q]].free >= size
    requires j < |OrderTaken(order, q, runs[order[q]].count > 1)|
    ensures var next, taken := OrderTaken(order, q, runs[order[q]].count > 1), RunsTaken(runs, order[q], size);
            next[j] < |taken| && taken[next[j]].next == Following(next, j)
  {
    hide OrderTaken, Following;
    var split := runs[order[q]].count > 1;
    var next, taken := OrderTaken(order, q, split), RunsTaken(runs, order[q], size);
    TakeLengths(runs, order, q, size);
    OrderTakenAt(order, q, split, j);
    if j + 1 < |next| {
      OrderTakenAt(order, q, split, j + 1);
    }
    Follows(next, j);
    var i := if j <= q || !split then j else j - 1;
    Follows(order, i);
    assert runs[order[i]].next == Following(order, i);
    assert i != q ==> order[i] != order[q];
  }

  lemma Follows(order: seq<nat>, j: nat)
    ensures Following(order, j) == if j + 1 < |order| then order[j + 1] else -1
  {
  }

  /** A counted run has several sets when the group it stands for has. */
  lemma {:induction false} TakeStands(runs: seq<MonitorRun>, tail: int, order: seq<nat>, groups: seq<Group>, splits: nat, q: nat, size: nat)
    requires Linked(runs, tail, order) && Standing(runs, order, groups, splits) && splits + 2 < MAXINT
    requires q < |order| && runs[order[q]].free >= size
    ensures var split := runs[order[q]].count > 1;
            && split == (groups[q].count > 1)
            && |OrderTaken(order, q, split)| == |RunsTaken(runs, order[q], size)|
            && (forall j :: 0 <= j < |OrderTaken(order, q, split)| ==> OrderTaken(order, q, split)[j] < |RunsTaken(runs, order[q], size)|)
            && Standing(RunsTaken(runs, order[q], size), OrderTaken(order, q, split), Taken(groups, q, size), splits + 1)
  {
    hide Expand, Following, OrderTaken, RunsTaken, Taken;
    var split := runs[order[q]].count > 1;
    var next, taken, all := OrderTaken(order, q, split), RunsTaken(runs, order[q], size), Taken(groups, q, size);
    TakeLengths(runs, order, q, size);
    TakenLength(groups, q, size);
    forall j | 0 <= j < |next|
      ensures next[j] < |taken|
    {
      OrderTakenAt(order, q, split, j);
    }
    forall j | 0 <= j < |next|
      ensures all[j].count > 0
      ensures taken[next[j]].free == all[j].free
      ensures CountsAs(taken[next[j]].count, all[j].count, splits + 1)
      ensures taken[next[j]].first == Cap(|Expand(all[..j])|)
    {
      TakeStand(runs, tail, order, groups, splits, q, size, j);
    }
  }

  lemma TakenLength(groups: seq<Group>, q: nat, size: nat)
    requires q < |groups| && groups[q].free >= size
    ensures |Taken(groups, q, size)| == |groups| + if groups[q].count > 1 then 1 else 0
  {
  }

  lemma {:induction false} TakenAt(groups: seq<Group>, q: nat, size: nat, j: nat)
    requires q < |groups| && groups[q].free >= size && j < |Taken(groups, q, size)|
    ensures Taken(groups, q, size)[j]
            == if j == q then Group(1, groups[q].free - size)
               else if j < q || groups[q].count <= 1 then groups[j]
               else if j == q + 1 then Group(groups[q].count - 1, groups[q].free)
               else groups[j - 1]
  {
  }

  lemma {:induction false} TakeStand(runs: seq<MonitorRun>, tail: int, order: seq<nat>, groups: seq<Group>, splits: nat, q: nat, size: nat, j: nat)
    requires Linked(runs, tail, order) && Standing(runs, order, groups, splits) && splits + 2 < MAXINT
    requires q < |order| && runs[order[q]].free >= size
    requires j < |OrderTaken(order, q, runs[order[q]].count > 1)|
    ensures var next, taken, all := OrderTaken(order, q, runs[order[q]].count > 1), RunsTaken(runs, order[q], size), Taken(groups, q, size);
            && |all| == |next| && next[j] < |taken|
            && all[j].count > 0
            && taken[next[j]].free == all[j].free
            && CountsAs(taken[next[j]].count, all[j].count, splits + 1)
            && taken[next[j]].first == Cap(|Expand(all[..j])|)
  {
    hide Expand, Following, OrderTaken, Taken;
    var split := runs[order[q]].count > 1;
    TakeLengths(runs, order, q, size);
    TakenLength(groups, q, size);
    OrderTakenAt(order, q, split, j);
    TakenAt(groups, q, size, j);
    TakenStarts(groups, q, size, j);
    var i := if j <= q || !split then j else j - 1;
    assert runs[order[i]].first == Cap(|Expand(groups[..i])|) && groups[i].count > 0;
    assert runs[order[q]].first == Cap(|Expand(groups[..q])|);
    assert i != q ==> order[i] != order[q];
  }

  /** No set moves in the order when one takes a block. */
  lemma {:induction false} TakenStarts(groups: seq<Group>, q: nat, size: nat, j: nat)
    requires NoneEmpty(groups) && q < |groups| && groups[q].free >= size
    requires j < |Taken(groups, q, size)|
    ensures |Expand(Taken(groups, q, size)[..j])|
            == if j <= q || groups[q].count == 1 then |Expand(groups[..j])|
               else if j == q + 1 then |Expand(groups[..q])| + 1
               else |Expand(groups[..j - 1])|
  {
    hide Expand, Taken;
    var all, g, tail := Taken(groups, q, size), groups[q], groups[q + 1..];
    var front := groups[..q] + [Group(1, g.free - size)];
    ExpandAppend(groups[..q], Group(1, g.free - size));
    ExpandPrefix(groups, q);
    TakenParts(groups, q, size);
    FirstOfConcat(groups[..q + 1], tail, j);
    if j <= q {
      assert all[..j] == groups[..j];
    } else if g.count == 1 {
      FirstOfConcat(front, tail, j);
      ExpandConcat(front, tail[..j - |front|]);
      ExpandConcat(groups[..q + 1], tail[..j - |front|]);
    } else if j > q + 1 {
      var rest := Group(g.count - 1, g.free);
      ExpandAppend(front, rest);
      FirstOfConcat(front + [rest], tail, j);
      FirstOfConcat(groups[..q + 1], tail, j - 1);
      ExpandConcat(front + [rest], tail[..j - |front| - 1]);
      ExpandConcat(groups[..q + 1], tail[..j - |front| - 1]);
    } else {
      assert all[..j] == front;
    }
  }

  lemma TakenParts(groups: seq<Group>, q: nat, size: nat)
    requires q < |groups| && groups[q].count > 0 && groups[q].free >= size
    ensures var front, tail := groups[..q] + [Group(1, groups[q].free - size)], groups[q + 1..];
            && Taken(groups, q, size)
               == (if groups[q].count == 1 then front else front + [Group(groups[q].count - 1, groups[q].free)]) + tail
            && forall j :: 0 <= j <= q ==> Taken(groups, q, size)[..j] == groups[..j]
    ensures groups == groups[..q + 1] + groups[q + 1..]
  {
  }

  lemma FirstOfConcat<T>(x: seq<T>, y: seq<T>, n: nat)
    requires n <= |x + y|
    ensures n >= |x| ==> (x + y)[..n] == x + y[..n - |x|]
  {
  }

  /** Every hint stays right, also those to runs after the split. */
  lemma {:induction false} TakeHints(firstFit: seq<int>, order: seq<nat>, groups: seq<Group>, q: nat, k: nat)
    requires Hinting(firstFit, order, groups) && |order| == |groups| && q < |order| && k < 64
    requires groups[q].free >= Pow2(k) && NoRoom(groups, q, Pow2(k))
    ensures Hinting(firstFit[k := order[q]], OrderTaken(order, q, groups[q].count > 1), Taken(groups, q, Pow2(k)))
  {
    hide Pow2;
    var next, all, hints := OrderTaken(order, q, groups[q].count > 1), Taken(groups, q, Pow2(k)), firstFit[k := order[q]];
    forall i | 0 <= i < 64 && hints[i] != -1
      ensures Hinted(hints[i], next, all, Pow2(i))
    {
      if i == k {
        HintStays(groups, q, Pow2(k), q, Pow2(k));
        assert next[q] == order[q];
      } else {
        var hint: nat :| hint < |order| && order[hint] == firstFit[i] && NoRoom(groups, hint, Pow2(i));
        HintStays(groups, q, Pow2(k), hint, Pow2(i));
        var moved := if hint > q && groups[q].count > 1 then hint + 1 else hint;
        assert next[moved] == order[hint];
      }
    }
  }

  // ----- The packing of one family -----

  ghost function Frees(bins: seq<Bin>): seq<nat> {
    seq(|bins|, i requires 0 <= i < |bins| => bins[i].free)
  }

  /** A target set lists these blocks, in this order. */
  ghost predicate Lists(prefixes: seq<Prefix>, items: seq<Block>, family: Family) {
    OfFamily(prefixes, family) && Blocks(prefixes) == items
  }

  /** The first sets, up to the limit, are built. */
  ghost predicate Shown(sets: seq<seq<Prefix>>, bins: seq<Bin>, limit: int, family: Family) {
    && |sets| == (if limit < 0 then 0 else if limit < |bins| then limit else |bins|)
    && forall i :: 0 <= i < |sets| ==> Lists(sets[i], bins[i].items, family)
  }

  /** The set that takes a block is the one where first fit puts it. */
  lemma {:induction false} JoinsFirstRoom(bins: seq<Bin>, groups: seq<Group>, q: nat, b: Block, perMonitor: nat)
    requires Frees(bins) == Expand(groups) && NoneEmpty(groups) && Pow2(b.host) <= perMonitor
    requires q < |groups| && NoRoom(groups, q, Pow2(b.host)) && groups[q].free >= Pow2(b.host)
    ensures var at := |Expand(groups[..q])|;
            && at < |bins| && bins[at].free == groups[q].free
            && Join(bins, b, perMonitor) == bins[at := Bin(bins[at].free - Pow2(b.host), bins[at].items + [b])]
  {
    hide Expand, Fit;
    var size := Pow2(b.host);
    FirstRoom(groups, q, size);
    var at := |Expand(groups[..q])|;
    forall i | 0 <= i < at
      ensures bins[i].free < size
    {
      assert Frees(bins)[i] < size;
    }
    FitUnique(bins, size, 0, at);
  }

  lemma {:induction false} FitUnique(bins: seq<Bin>, size: nat, from: nat, at: nat)
    requires from <= at <= |bins| && (at < |bins| ==> bins[at].free >= size)
    requires forall i :: from <= i < at ==> bins[i].free < size
    ensures Fit(bins, size, from) == at
    decreases at - from
  {
    if from >= at {
    } else {
      FitUnique(bins, size, from + 1, at);
    }
  }

  lemma {:induction false} JoinsNewSet(bins: seq<Bin>, groups: seq<Group>, b: Block, perMonitor: nat)
    requires Frees(bins) == Expand(groups) && Pow2(b.host) <= perMonitor
    requires NoRoom(groups, |groups|, Pow2(b.host))
    ensures Join(bins, b, perMonitor) == Join(bins + [Bin(perMonitor, [])], b, perMonitor)
    ensures Frees(bins + [Bin(perMonitor, [])]) == Expand(groups + [Group(1, perMonitor)])
  {
    hide Expand, Fit;
    var size := Pow2(b.host);
    ExpandFull(groups, size);
    forall i | 0 <= i < |bins|
      ensures bins[i].free < size
    {
      assert Frees(bins)[i] < size;
    }
    FitUnique(bins, size, 0, |bins|);
    FitUnique(bins + [Bin(perMonitor, [])], size, 0, |bins|);
    ExpandAppend(groups, Group(1, perMonitor));
    assert [] + [b] == [b];
  }

  lemma {:induction false} FreesTaken(bins: seq<Bin>, groups: seq<Group>, q: nat, size: nat, bin: Bin)
    requires Frees(bins) == Expand(groups) && NoneEmpty(groups) && q < |groups| && groups[q].free >= size
    requires bin.free == groups[q].free - size
    ensures |Expand(groups[..q])| < |bins|
    ensures Frees(bins[|Expand(groups[..q])| := bin]) == Expand(Taken(groups, q, size))
  {
    hide Expand, Taken;
    ExpandTaken(groups, q, size);
  }

  lemma {:induction false} ShownTaken(sets: seq<seq<Prefix>>, bins: seq<Bin>, limit: int, family: Family, at: nat, prefix: Prefix, free: nat)
    requires Shown(sets, bins, limit, family) && at < |bins| && limit <= MAXINT
    requires prefix.IsValid() && prefix.addr.family == family
    ensures Cap(at) < limit ==> Cap(at) == at < |sets|
    ensures Shown(if Cap(at) < limit then sets[at := sets[at] + [prefix]] else sets,
                  bins[at := Bin(free, bins[at].items + [BlockOf(prefix)])], limit, family)
  {
    hide Blocks;
    if at < limit {
      NextBlock(sets[at], prefix);
    }
  }

  lemma {:induction false} FreesOpened(bins: seq<Bin>, groups: seq<Group>, pieces: seq<Block>, free: nat)
    requires Frees(bins) == Expand(groups)
    ensures Frees(bins + Opened(pieces, free)) == Expand(groups + [Group(|pieces|, free)])
  {
    hide Expand;
    ExpandAppend(groups, Group(|pieces|, free));
  }

  lemma HintAt(firstFit: seq<int>, order: seq<nat>, groups: seq<Group>, k: nat) returns (q: nat)
    requires Hinting(firstFit, order, groups) && k < 64
    ensures firstFit[k] >= -1
    ensures firstFit[k] >= 0 ==> q < |order| && order[q] == firstFit[k] && NoRoom(groups, q, Pow2(k))
  {
    q := 0;
    if firstFit[k] != -1 {
      q :| q < |order| && order[q] == firstFit[k] && NoRoom(groups, q, Pow2(k));
    }
  }

  lemma NoRoomSteps(groups: seq<Group>, size: nat)
    ensures NoRoom(groups, 0, size)
    ensures forall q :: 0 <= q < |groups| && NoRoom(groups, q, size) && groups[q].free < size ==> NoRoom(groups, q + 1, size)
  {
  }

  lemma FirstRun(runs: seq<MonitorRun>, tail: int, order: seq<nat>)
    requires Linked(runs, tail, order)
    ensures |order| == |runs| && (order != [] ==> order[0] == 0)
    ensures forall j :: 0 <= j < |order| ==> order[j] < |runs|
  {
  }

  lemma NextRun(runs: seq<MonitorRun>, tail: int, order: seq<nat>, groups: seq<Group>, splits: nat, q: nat)
    requires Linked(runs, tail, order) && Standing(runs, order, groups, splits) && q < |order|
    ensures |groups| == |order| && order[q] < |runs| && runs[order[q]].free == groups[q].free
    ensures runs[order[q]].next == if q + 1 < |order| then order[q + 1] else -1
  {
    hide Expand, Following;
    Follows(order, q);
  }

  /** The state of packing one family. The sets opened so far stand, as `bins`, for
      what plain first fit has after the same blocks. */
  class Packing {
    const perMonitor: nat
    const limit: int
    const shift: nat
    const family: Family
    var runs: seq<MonitorRun>
    var tail: int
    var sets: seq<seq<Prefix>>
    var total: int
    /** By k, the run that the search for 2^k free addresses begins with; -1 stands
        for the first run. */
    const firstFit: array<int>
    ghost var order: seq<nat>
    ghost var groups: seq<Group>
    ghost var splits: nat
    ghost var bins: seq<Bin>

    ghost predicate Listed()
      reads this, firstFit
    {
      && firstFit.Length == 64
      && Linked(runs, tail, order) && Standing(runs, order, groups, splits) && Hinting(firstFit[..], order, groups)
    }

    ghost predicate Valid()
      reads this, firstFit
    {
      && Listed()
      && shift < 64 && Pow2(shift) <= perMonitor && limit <= MAXINT
      && Frees(bins) == Expand(groups)
      && total == Cap(|bins|)
      && Shown(sets, bins, limit, family)
    }

    constructor (perMonitor: nat, limit: int, shift: nat, family: Family)
      requires shift < 64 && Pow2(shift) <= perMonitor && limit <= MAXINT
      ensures Valid() && fresh(firstFit)
      ensures this.perMonitor == perMonitor && this.limit == limit && this.shift == shift && this.family == family
      ensures bins == [] && splits == 0
    {
      this.perMonitor, this.limit, this.shift, this.family := perMonitor, limit, shift, family;
      runs, tail, sets, total := [], -1, [], 0;
      firstFit := new int[64](i => -1);
      order, groups, splits, bins := [], [], 0, [];
    }

    method OpenRun(run: MonitorRun, ghost g: Group)
      requires Listed() && run.next == -1
      requires g.count > 0 && run.free == g.free && CountsAs(run.count, g.count, splits) && run.first == Cap(|Expand(groups)|)
      modifies this`runs, this`tail, this`order, this`groups
      ensures Listed() && groups == old(groups) + [g] && order == old(order) + [|old(runs)|] && tail == |old(runs)|
    {
      hide Linked, Standing, Hinting, Expand;
      OpenLinks(runs, tail, order, run, Extended(runs, tail, run));
      OpenStands(runs, tail, order, groups, splits, run, g, Extended(runs, tail, run));
      OpenHints(firstFit[..], order, groups, |runs|, g);
      runs := runs + [run];
      if tail >= 0 {
        runs := runs[tail := runs[tail].(next := |runs| - 1)];
      }
      tail := |runs| - 1;
      assert runs == Extended(old(runs), old(tail), run);
      order, groups := order + [|runs| - 1], groups + [g];
    }

    /** The first run in order with room for 2^hostBits addresses, looking from
        the hint on, or -1. */
    method FindRoom(hostBits: nat) returns (at: int, ghost q: nat)
      requires Listed() && hostBits < 64
      ensures at == -1 ==> NoRoom(groups, |groups|, Pow2(hostBits))
      ensures at != -1 ==>
                && at >= 0 && q < |order| == |groups| && order[q] == at && at < |runs|
                && NoRoom(groups, q, Pow2(hostBits)) && runs[at].free == groups[q].free >= Pow2(hostBits)
    {
      hide Pow2, Expand, Linked, Standing, Hinting, NoRoom;
      var size := Pow2(hostBits);
      at := firstFit[hostBits];
      ghost var hint := HintAt(firstFit[..], order, groups, hostBits);
      q := if at < 0 then 0 else hint;
      SameLength(runs, tail, order, groups, splits);
      NoRoomSteps(groups, size);
      FirstRun(runs, tail, order);
      if at < 0 && |runs| > 0 {
        at := 0;
      }
      while at >= 0 && runs[at].free < size
        invariant q <= |order| && NoRoom(groups, q, size)
        invariant at >= -1 && (at == -1 ==> q == |order|) && (at >= 0 ==> q < |order| && order[q] == at < |runs|)
        decreases |order| - q
      {
        NextRun(runs, tail, order, groups, splits, q);
        at := runs[at].next;
        q := q + 1;
      }
      if at >= 0 {
        NextRun(runs, tail, order, groups, splits, q);
      }
    }

    /** The first set of a run takes 2^hostBits addresses, and the others become the
        next run. */
    method SplitRun(at: int, hostBits: nat, ghost q: nat)
      requires Listed() && splits + 2 < MAXINT && hostBits < 64
      requires q < |order| == |groups| && order[q] == at && at < |runs|
      requires NoRoom(groups, q, Pow2(hostBits)) && runs[at].free == groups[q].free >= Pow2(hostBits)
      modifies this`runs, this`tail, this`order, this`groups, this`splits, firstFit
      ensures Listed() && splits == old(splits) + 1
      ensures groups == Taken(old(groups), q, Pow2(hostBits))
      ensures at < |runs| && runs[at].first == Cap(|Expand(old(groups)[..q])|)
    {
      hide Pow2, Expand, Linked, Standing, Hinting, Taken, OrderTaken, NoRoom;
      var size := Pow2(hostBits);
      ghost var before, split := runs, runs[at].count > 1;
      RunAt(runs, tail, order, groups, splits, q);
      TakeLinks(runs, tail, order, q, size);
      TakeStands(runs, tail, order, groups, splits, q, size);
      TakeHints(firstFit[..], order, groups, q, hostBits);
      if runs[at].count > 1 {
        var rest := runs[at];
        rest := rest.(count := rest.count - 1, first := AddCapped(rest.first, 1));
        runs := runs + [rest];
        runs := runs[at := runs[at].(count := 1, next := |runs| - 1)];
        if tail == at {
          tail := |runs| - 1;
        }
      }
      ghost var hints := firstFit[..];
      firstFit[hostBits] := at;
      assert firstFit[..] == hints[hostBits := at];
      runs := runs[at := runs[at].(free := runs[at].free - size)];
      assert runs == RunsTaken(before, at, size);
      order, groups, splits := OrderTaken(order, q, split), Taken(groups, q, size), splits + 1;
    }

    /** The first set of a run takes a block. */
    method TakeRoom(at: int, prefix: Prefix, ghost q: nat)
      requires Valid() && splits + 2 < MAXINT
      requires prefix.IsValid() && prefix.addr.family == family && prefix.HostBits() < 64 && Pow2(prefix.HostBits()) <= perMonitor
      requires q < |order| == |groups| && order[q] == at && at < |runs|
      requires NoRoom(groups, q, Pow2(prefix.HostBits())) && runs[at].free == groups[q].free >= Pow2(prefix.HostBits())
      modifies this, firstFit
      ensures Valid() && splits == old(splits) + 1
      ensures bins == Join(old(bins), BlockOf(prefix), perMonitor)
    {
      hide Pow2, Expand, Linked, Standing, Hinting, Blocks, Join, Taken, Shown, NoRoom, OfFamily, Frees;
      var size := Pow2(prefix.HostBits());
      ghost var start := |Expand(groups[..q])|;
      RunAt(runs, tail, order, groups, splits, q);
      JoinsFirstRoom(bins, groups, q, BlockOf(prefix), perMonitor);
      ghost var bin := Bin(bins[start].free - size, bins[start].items + [BlockOf(prefix)]);
      FreesTaken(bins, groups, q, size, bin);
      ShownTaken(sets, bins, limit, family, start, prefix, bin.free);
      SplitRun(at, prefix.HostBits(), q);
      var index := runs[at].first;
      if index < limit {
        sets := sets[index := sets[index] + [prefix]];
      }
      bins := bins[start := bin];
    }

    /** A large block splits into pieces of 2^shift addresses, each of which opens a
        set of its own; no more than limit sets are built. */
    method AddLarge(prefix: Prefix)
      requires Valid() && perMonitor < 2 * Pow2(shift)
      requires prefix.IsValid() && prefix.addr.family == family && shift <= prefix.HostBits()
      requires BlockOf(prefix).Aligned() && BlockOf(prefix).Last() <= Last(family)
      modifies this
      ensures Valid() && splits == old(splits)
      ensures bins == old(bins) + Opened(Pieces(prefix.addr.value, shift, Pow2(prefix.HostBits() - shift)), perMonitor - Pow2(shift))
    {
      hide Pow2, Expand, Linked, Standing, Hinting, Shown, Pieces, Opened, Times, Frees, WithHostBits;
      var hostBits := prefix.HostBits();
      ghost var count, free := Pow2(hostBits - shift), perMonitor - Pow2(shift);
      var pieces := MAXINT;
      if hostBits - shift < 63 {
        pieces := Pow2(hostBits - shift);
      }
      PieceCount(hostBits - shift);
      PieceSpan(prefix.addr.value, shift, hostBits);
      var piece := Prefix(prefix.addr, BitLen(prefix.addr) - shift);
      NoPieces(bins, prefix.addr.value, shift, free);
      var n := 0;
      while n < pieces && |sets| < limit
        invariant 0 <= n <= pieces <= count
        invariant Shown(sets, bins + Opened(Pieces(prefix.addr.value, shift, n), free), limit, family)
        invariant n < count ==>
                    && piece.IsValid() && piece.addr.family == family && piece.HostBits() == shift
                    && piece.addr.value == prefix.addr.value + Times(n, Pow2(shift))
        invariant Listed()
        decreases pieces - n
        modifies this`sets
      {
        ShowsPiece(sets, bins, limit, family, piece, prefix.addr.value, shift, n, free);
        sets := sets + [[piece]];
        NextPiece(prefix.addr.value, shift, hostBits, n);
        AlignedLast(piece.addr.value, shift);
        var last := LastAddr(piece);
        piece := Prefix(Next(last), piece.bits);
        n := n + 1;
      }
      ShowsAll(sets, bins, limit, family, prefix.addr.value, shift, n, count, free);
      FreesOpened(bins, groups, Pieces(prefix.addr.value, shift, count), free);
      FreesLength(bins, groups);
      OpenRun(MonitorRun(pieces, total, perMonitor - Pow2(shift), -1), Group(count, free));
      total := AddCapped(total, pieces);
      bins := bins + Opened(Pieces(prefix.addr.value, shift, count), free);
    }

    /** A small block joins the first set that has room, or opens one. */
    method AddSmall(prefix: Prefix)
      requires Valid() && splits + 2 < MAXINT
      requires prefix.IsValid() && prefix.addr.family == family && prefix.HostBits() < shift
      modifies this, firstFit
      ensures Valid() && splits == old(splits) + 1
      ensures Pow2(prefix.HostBits()) <= perMonitor && bins == Join(old(bins), BlockOf(prefix), perMonitor)
    {
      hide Pow2, Expand, Linked, Standing, Hinting, Blocks, Join, OfFamily;
      Pow2Grows(prefix.HostBits(), shift);
      var at;
      ghost var q;
      at, q := FindRoom(prefix.HostBits());
      if at == -1 {
        JoinsNewSet(bins, groups, BlockOf(prefix), perMonitor);
        OpensEmpty(sets, bins, limit, family, perMonitor);
        if total < limit {
          sets := sets + [[]];
        }
        ghost var n := |groups|;
        SameLength(runs, tail, order, groups, splits);
        OpenRun(MonitorRun(1, total, perMonitor, -1), Group(1, perMonitor));
        total := AddCapped(total, 1);
        bins := bins + [Bin(perMonitor, [])];
        RunAt(runs, tail, order, groups, splits, n);
        TakeRoom(tail, prefix, n);
      } else {
        TakeRoom(at, prefix, q);
      }
    }
  }

  lemma PieceCount(bits: nat)
    ensures bits < 63 ==> Pow2(bits) <= MAXINT
    ensures bits >= 63 ==> Pow2(bits) > MAXINT
  {
    Pow2Values();
    assert Pow2(64) == 2 * Pow2(63);
    if bits < 63 {
      Pow2Grows(bits, 63);
    } else {
      Pow2Grows(63, bits);
    }
  }

  lemma FreesLength(bins: seq<Bin>, groups: seq<Group>)
    requires Frees(bins) == Expand(groups)
    ensures |bins| == |Expand(groups)|
  {
    assert |Frees(bins)| == |bins|;
  }

  lemma PieceSpan(from: nat, shift: nat, host: nat)
    requires shift <= host
    ensures Times(Pow2(host - shift), Pow2(shift)) == Pow2(host)
    ensures Times(0, Pow2(shift)) == 0
  {
    Pow2Sum(host - shift, shift);
    TimesIsProduct(Pow2(host - shift), Pow2(shift));
  }

  lemma NoPieces(bins: seq<Bin>, from: nat, shift: nat, free: nat)
    ensures bins + Opened(Pieces(from, shift, 0), free) == bins
  {
  }

  /** The next piece of a block is within it and aligned. */
  lemma {:induction false} NextPiece(from: nat, shift: nat, host: nat, n: nat)
    requires shift <= host && n < Pow2(host - shift) && from % Pow2(host) == 0
    ensures Times(n + 1, Pow2(shift)) == Times(n, Pow2(shift)) + Pow2(shift)
    ensures (from + Times(n, Pow2(shift))) % Pow2(shift) == 0
    ensures n + 1 < Pow2(host - shift) ==> Times(n + 1, Pow2(shift)) < Pow2(host)
  {
    hide Pow2;
    PieceSpan(from, shift, host);
    AlignedOnLess(from, host, shift);
    AlignedTimes(from, shift, n);
    TimesGrows(n + 1, Pow2(host - shift), Pow2(shift));
  }

  lemma {:induction false} AlignedTimes(from: nat, shift: nat, n: nat)
    requires from % Pow2(shift) == 0
    ensures (from + Times(n, Pow2(shift))) % Pow2(shift) == 0
  {
    hide Pow2;
    if n == 0 {
    } else {
      AlignedTimes(from, shift, n - 1);
      AlignedEnd(from + Times(n - 1, Pow2(shift)), shift);
    }
  }

  lemma {:induction false} TimesGrows(a: nat, b: nat, unit: nat)
    requires unit > 0
    ensures a < b ==> Times(a, unit) < Times(b, unit)
    decreases b
  {
    if a + 1 >= b {
    } else {
      TimesGrows(a, b - 1, unit);
    }
  }

  lemma {:induction false} ShowsPiece(sets: seq<seq<Prefix>>, bins: seq<Bin>, limit: int, family: Family, piece: Prefix,
                                      from: nat, shift: nat, n: nat, free: nat)
    requires Shown(sets, bins + Opened(Pieces(from, shift, n), free), limit, family) && |sets| < limit
    requires piece.IsValid() && piece.addr.family == family && BlockOf(piece) == Block(from + Times(n, Pow2(shift)), shift)
    ensures Shown(sets + [[piece]], bins + Opened(Pieces(from, shift, n + 1), free), limit, family)
  {
    hide Times, Pow2, Blocks;
    NoBlocks();
    NextBlock([], piece);
    assert [] + [piece] == [piece] && [] + [BlockOf(piece)] == [BlockOf(piece)];
  }

  /** The sets built stop at the limit. */
  lemma {:induction false} ShowsAll(sets: seq<seq<Prefix>>, bins: seq<Bin>, limit: int, family: Family,
                                    from: nat, shift: nat, n: nat, count: nat, free: nat)
    requires Shown(sets, bins + Opened(Pieces(from, shift, n), free), limit, family) && n <= count && limit <= MAXINT
    requires n == count || |sets| >= limit || n == MAXINT
    ensures Shown(sets, bins + Opened(Pieces(from, shift, count), free), limit, family)
  {
    hide Times, Pow2, Lists;
    PiecesPrefix(from, shift, n, count);
    var some, all := bins + Opened(Pieces(from, shift, n), free), bins + Opened(Pieces(from, shift, count), free);
    forall i | 0 <= i < |some|
      ensures all[i] == some[i]
    {
    }
  }

  lemma {:induction false} PiecesPrefix(from: nat, shift: nat, n: nat, count: nat)
    requires n <= count
    ensures forall i :: 0 <= i < n ==> Pieces(from, shift, count)[i] == Pieces(from, shift, n)[i]
    decreases count
  {
    hide Times, Pow2;
    if n >= count {
    } else {
      PiecesPrefix(from, shift, n, count - 1);
    }
  }

  lemma RunAt(runs: seq<MonitorRun>, tail: int, order: seq<nat>, groups: seq<Group>, splits: nat, q: nat)
    requires Linked(runs, tail, order) && Standing(runs, order, groups, splits) && q < |order|
    ensures NoneEmpty(groups) && |groups| == |order| && order[q] < |runs|
    ensures runs[order[q]].first == Cap(|Expand(groups[..q])|) && runs[order[q]].free == groups[q].free
  {
    hide Expand;
  }

  lemma SameLength(runs: seq<MonitorRun>, tail: int, order: seq<nat>, groups: seq<Group>, splits: nat)
    requires Linked(runs, tail, order) && Standing(runs, order, groups, splits)
    ensures |groups| == |order| == |runs|
  {
  }

  lemma OpensEmpty(sets: seq<seq<Prefix>>, bins: seq<Bin>, limit: int, family: Family, perMonitor: nat)
    requires Shown(sets, bins, limit, family) && limit <= MAXINT
    ensures Shown(if Cap(|bins|) < limit then sets + [[]] else sets, bins + [Bin(perMonitor, [])], limit, family)
  {
    NoBlocks();
  }
}
