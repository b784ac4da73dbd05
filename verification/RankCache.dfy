/** The bounded cache of duration keys, whose hand-written max-heap finds the worst
    retained entry. */
module RankCache {
  import opened RankOrder
  import AlignedBlocks

  // ----- The heap -----

  function Up(i: nat): nat
    requires i > 0
  {
    (i - 1) / 2
  }

  /** No entry is above its parent. */
  ghost predicate Heap(h: seq<Rank>) {
    forall i :: 0 < i < |h| ==> Compare(h[Up(i)], h[i]) >= 0
  }

  /** A heap but for the entry at `hole` and its parent. */
  ghost predicate HeapBelow(h: seq<Rank>, hole: nat) {
    && (forall i :: 0 < i < |h| && i != hole ==> Compare(h[Up(i)], h[i]) >= 0)
    && (forall i :: 0 < i < |h| && Up(i) == hole && hole > 0 ==> Compare(h[Up(hole)], h[i]) >= 0)
  }

  /** A heap but for the entry at `hole` and its children. */
  ghost predicate HeapAbove(h: seq<Rank>, hole: nat) {
    && (forall i :: 0 < i < |h| && Up(i) != hole ==> Compare(h[Up(i)], h[i]) >= 0)
    && (forall i :: 0 < i < |h| && Up(i) == hole && hole > 0 ==> Compare(h[Up(hole)], h[i]) >= 0)
  }

  lemma {:induction false} RootIsLargest(h: seq<Rank>, i: nat)
    requires Heap(h) && i < |h|
    ensures Compare(h[i], h[0]) <= 0
  {
    hide Compare;
    RanksAreOrdered(h[i], h[i]);
    if i == 0 {
    } else {
      RootIsLargest(h, Up(i));
      ComparesBack(h[Up(i)], h[i]);
      OrderIsTransitive(h[i], h[Up(i)], h[0]);
    }
  }

  lemma ComparesBack(a: Rank, b: Rank)
    ensures Compare(a, b) >= 0 <==> Compare(b, a) <= 0
    ensures Compare(a, b) > 0 <==> Compare(b, a) < 0
  {
    RanksAreOrdered(a, b);
    RanksAreOrdered(b, a);
  }

  lemma SwapKeeps(h: seq<Rank>, i: nat, j: nat)
    requires i < |h| && j < |h|
    ensures multiset(h[i := h[j]][j := h[i]]) == multiset(h)
  {
  }

  lemma {:induction false} SiftsUp(h: seq<Rank>, child: nat)
    requires 0 < child < |h| && HeapBelow(h, child) && Compare(h[Up(child)], h[child]) < 0
    ensures HeapBelow(h[child := h[Up(child)]][Up(child) := h[child]], Up(child))
  {
    hide Compare;
    var parent := Up(child);
    var next := h[child := h[parent]][parent := h[child]];
    forall i | 0 < i < |h| && i != parent
      ensures Compare(next[Up(i)], next[i]) >= 0
    {
      SiftedUp(h, child, i);
    }
    forall i | 0 < i < |h| && Up(i) == parent && parent > 0
      ensures Compare(next[Up(parent)], next[i]) >= 0
    {
      if i != child {
        GrandparentIsAbove(h, parent, i);
      }
    }
  }

  lemma {:induction false} SiftedUp(h: seq<Rank>, child: nat, i: nat)
    requires 0 < child < |h| && HeapBelow(h, child) && Compare(h[Up(child)], h[child]) < 0
    requires 0 < i < |h| && i != Up(child)
    ensures var parent := Up(child);
            var next := h[child := h[parent]][parent := h[child]];
            Compare(next[Up(i)], next[i]) >= 0
  {
    hide Compare;
    var parent := Up(child);
    ComparesBack(h[parent], h[child]);
    ComparesBack(h[child], h[parent]);
    if Up(i) == parent && i != child {
      ComparesBack(h[parent], h[i]);
      OrderIsTransitive(h[i], h[parent], h[child]);
      ComparesBack(h[child], h[i]);
    }
  }

  lemma {:induction false} GrandparentIsAbove(h: seq<Rank>, parent: nat, i: nat)
    requires 0 < parent && 0 < i < |h| && Up(i) == parent
    requires Compare(h[Up(parent)], h[parent]) >= 0 && Compare(h[parent], h[i]) >= 0
    ensures Compare(h[Up(parent)], h[i]) >= 0
  {
    hide Compare;
    ComparesBack(h[parent], h[i]);
    ComparesBack(h[Up(parent)], h[parent]);
    OrderIsTransitive(h[i], h[parent], h[Up(parent)]);
    ComparesBack(h[Up(parent)], h[i]);
  }

  /** The child of an entry that is not below the other child. */
  ghost predicate LargestChild(h: seq<Rank>, parent: nat, child: nat) {
    && 0 < child < |h| && Up(child) == parent
    && forall i :: 0 < i < |h| && Up(i) == parent ==> Compare(h[child], h[i]) >= 0
  }

  lemma {:induction false} SiftsDown(h: seq<Rank>, parent: nat, child: nat)
    requires parent < |h| && HeapAbove(h, parent) && LargestChild(h, parent, child) && Compare(h[parent], h[child]) < 0
    ensures HeapAbove(h[parent := h[child]][child := h[parent]], child)
  {
    hide Compare;
    var next := h[parent := h[child]][child := h[parent]];
    ComparesBack(h[child], h[parent]);
    forall i | 0 < i < |h| && Up(i) != child
      ensures Compare(next[Up(i)], next[i]) >= 0
    {
      if Up(i) == parent && i != child {
        assert Compare(h[child], h[i]) >= 0;
      } else if i == child {
        ComparesBack(h[parent], h[child]);
      } else if i == parent {
        assert Compare(h[Up(parent)], h[child]) >= 0;
      }
    }
    forall i | 0 < i < |h| && Up(i) == child && child > 0
      ensures Compare(next[Up(child)], next[i]) >= 0
    {
      assert Compare(h[child], h[i]) >= 0;
    }
  }

  lemma {:induction false} SiftedDown(h: seq<Rank>, parent: nat)
    requires HeapAbove(h, parent)
    requires forall i :: 0 < i < |h| && Up(i) == parent ==> Compare(h[parent], h[i]) >= 0
    ensures Heap(h)
  {
    hide Compare;
  }

  lemma LargerChildIsLarger(h: seq<Rank>, parent: nat, child: nat, i: nat)
    requires parent < |h| && LargestChild(h, parent, child) && Compare(h[parent], h[child]) >= 0
    requires 0 < i < |h| && Up(i) == parent
    ensures Compare(h[parent], h[i]) >= 0
  {
    hide Compare;
    ComparesBack(h[parent], h[child]);
    ComparesBack(h[child], h[i]);
    OrderIsTransitive(h[i], h[child], h[parent]);
    ComparesBack(h[parent], h[i]);
  }

  /** A removed last entry leaves a heap; in place of the root, one but for the root. */
  lemma {:induction false} ReplacesRoot(h: seq<Rank>, n: nat)
    requires Heap(h) && |h| == n + 1
    ensures Heap(h[..n])
    ensures n > 0 ==> HeapAbove(h[..n][0 := h[n]], 0)
    ensures n > 0 ==> multiset(h[..n][0 := h[n]]) + multiset{h[0]} == multiset(h)
  {
    hide Compare;
    assert h == h[..n] + [h[n]];
  }

  // ----- How deep the heap is -----

  function Depth(i: nat): nat {
    if i == 0 then 0 else 1 + Depth(Up(i))
  }

  /** The depth grows with the logarithm of the number of entries. */
  lemma {:induction false} DepthIsLogarithmic(i: nat)
    ensures AlignedBlocks.Pow2(Depth(i)) <= i + 1
  {
    if i == 0 {
    } else {
      DepthIsLogarithmic(Up(i));
    }
  }

  lemma {:induction false} DepthGrows(i: nat, j: nat)
    requires i <= j
    ensures Depth(i) <= Depth(j)
  {
    if i == 0 {
    } else {
      DepthGrows(Up(i), Up(j));
    }
  }

  // ----- The cache -----

  datatype Entry<V> = Entry(rank: nat, value: V)

  ghost function Elements(h: seq<Rank>): set<Rank> {
    set r | r in multiset(h)
  }

  ghost predicate Distinct(h: seq<Rank>) {
    forall r :: multiset(h)[r] <= 1
  }

  /** The heap holds the entries of the map, each once. */
  ghost predicate Matches<V(!new)>(h: seq<Rank>, keys: map<string, Entry<V>>, rankOf: string -> nat) {
    && Heap(h) && Distinct(h)
    && Elements(h) == Ranks(keys.Keys, rankOf)
    && (forall id :: id in keys ==> keys[id].rank == rankOf(id))
  }

  class RankCache<V(!new)> {
    const limit: nat
    /** The one rank of each ID. */
    ghost const rankOf: string -> nat
    var keys: map<string, Entry<V>>
    var keyRanks: seq<Rank>
    var keyAdmissionWork: nat
    /** Every entry offered so far. */
    ghost var offered: set<Rank>

    ghost predicate Valid()
      reads this
    {
      && limit > 0
      && Matches(keyRanks, keys, rankOf)
      && LowestOf(Ranks(keys.Keys, rankOf), offered, limit)
    }

    constructor (limit: nat, ghost rankOf: string -> nat)
      requires limit > 0
      ensures Valid() && this.limit == limit && this.rankOf == rankOf && offered == {}
    {
      this.limit, this.rankOf := limit, rankOf;
      keys, keyRanks, keyAdmissionWork, offered := map[], [], 0, {};
      new;
      assert Elements([]) == {} && Ranks({}, rankOf) == {};
    }

    method CompareRanks(a: Rank, b: Rank) returns (order: int)
      modifies this`keyAdmissionWork
      ensures order == Compare(a, b) && keyAdmissionWork == old(keyAdmissionWork) + 1
    {
      keyAdmissionWork := keyAdmissionWork + 1;
      if a.rank < b.rank {
        return -1;
      }
      if a.rank > b.rank {
        return 1;
      }
      StringsAreOrdered(a.id, b.id);
      if StringBefore(a.id, b.id) {
        return -1;
      }
      if StringBefore(b.id, a.id) {
        return 1;
      }
      return 0;
    }

    /** Inserts an entry, with one comparison a level. */
    method PushRank(value: Rank)
      requires Heap(keyRanks)
      modifies this`keyRanks, this`keyAdmissionWork
      ensures Heap(keyRanks) && multiset(keyRanks) == multiset(old(keyRanks)) + multiset{value}
      ensures keyAdmissionWork <= old(keyAdmissionWork) + Depth(|old(keyRanks)|)
    {
      hide Compare;
      keyRanks := keyRanks + [value];
      var child := |keyRanks| - 1;
      while child > 0
        invariant 0 <= child < |keyRanks| == |old(keyRanks)| + 1 && HeapBelow(keyRanks, child)
        invariant multiset(keyRanks) == multiset(old(keyRanks)) + multiset{value}
        invariant keyAdmissionWork + Depth(child) <= old(keyAdmissionWork) + Depth(|old(keyRanks)|)
      {
        var parent := (child - 1) / 2;
        var order := CompareRanks(keyRanks[parent], keyRanks[child]);
        if order >= 0 {
          break;
        }
        SiftsUp(keyRanks, child);
        SwapKeeps(keyRanks, child, parent);
        keyRanks := keyRanks[child := keyRanks[parent]][parent := keyRanks[child]];
        child := parent;
      }
    }

    /** Removes the root, the largest entry, with two comparisons a level. */
    method PopLargest() returns (largest: Rank)
      requires Heap(keyRanks) && |keyRanks| > 0
      modifies this`keyRanks, this`keyAdmissionWork
      ensures largest == old(keyRanks)[0]
      ensures Heap(keyRanks) && multiset(keyRanks) + multiset{largest} == multiset(old(keyRanks))
      ensures keyAdmissionWork <= old(keyAdmissionWork) + 2 * Depth(|old(keyRanks)|) + 2
    {
      hide Compare, Depth;
      largest := keyRanks[0];
      var lastIndex := |keyRanks| - 1;
      var last := keyRanks[lastIndex];
      ReplacesRoot(keyRanks, lastIndex);
      keyRanks := keyRanks[..lastIndex];
      if lastIndex == 0 {
        OnlyOne(old(keyRanks), keyRanks);
        return;
      }
      keyRanks := keyRanks[0 := last];
      var parent := 0;
      while true
        invariant parent < |keyRanks| == lastIndex && HeapAbove(keyRanks, parent)
        invariant multiset(keyRanks) + multiset{largest} == multiset(old(keyRanks))
        invariant keyAdmissionWork <= old(keyAdmissionWork) + 2 * Depth(parent)
        decreases |keyRanks| - parent
      {
        DepthGrows(parent, |old(keyRanks)|);
        var left := parent * 2 + 1;
        if left >= |keyRanks| {
          SiftedDown(keyRanks, parent);
          break;
        }
        var largestChild := left;
        var right := left + 1;
        if right < |keyRanks| {
          var order := CompareRanks(keyRanks[left], keyRanks[right]);
          if order < 0 {
            largestChild := right;
          }
        }
        ChosenChild(keyRanks, parent, largestChild);
        var order := CompareRanks(keyRanks[parent], keyRanks[largestChild]);
        if order >= 0 {
          NoneLarger(keyRanks, parent, largestChild);
          SiftedDown(keyRanks, parent);
          break;
        }
        SiftsDown(keyRanks, parent, largestChild);
        SwapKeeps(keyRanks, parent, largestChild);
        DepthOfChild(parent, largestChild);
        keyRanks := keyRanks[parent := keyRanks[largestChild]][largestChild := keyRanks[parent]];
        parent := largestChild;
      }
    }

    /** Drops the largest entry. */
    method DropLargest()
      requires Matches(keyRanks, keys, rankOf) && |keyRanks| > 0
      modifies this`keys, this`keyRanks, this`keyAdmissionWork
      ensures Matches(keyRanks, keys, rankOf)
      ensures Ranks(keys.Keys, rankOf) == Ranks(old(keys).Keys, rankOf) - {old(keyRanks)[0]}
      ensures forall id :: id in keys ==> id in old(keys) && keys[id] == old(keys)[id]
      ensures |keyRanks| < |old(keyRanks)|
      ensures keyAdmissionWork <= old(keyAdmissionWork) + 2 * Depth(|old(keyRanks)|) + 2
    {
      hide Compare, Heap, Distinct, Ranks, Elements, Depth;
      RootIsIn(keyRanks);
      var largest := PopLargest();
      PoppedElements(old(keyRanks), keyRanks, largest);
      RanksWithout(keys.Keys, rankOf, largest);
      keys := keys - {largest.id};
      assert keys.Keys == old(keys).Keys - {largest.id};
    }

    /** Adds an entry that the cache does not hold. */
    method AddEntry(id: string, entry: Entry<V>)
      requires Matches(keyRanks, keys, rankOf) && id !in keys && entry.rank == rankOf(id)
      modifies this`keys, this`keyRanks, this`keyAdmissionWork
      ensures Matches(keyRanks, keys, rankOf)
      ensures Ranks(keys.Keys, rankOf) == Ranks(old(keys).Keys, rankOf) + {Rank(id, entry.rank)}
      ensures keys == old(keys)[id := entry]
      ensures keyAdmissionWork <= old(keyAdmissionWork) + Depth(|old(keyRanks)|)
    {
      hide Compare, Heap, Distinct, Ranks, Elements, Depth;
      var candidate := Rank(id, entry.rank);
      ghost var before := keyRanks;
      NotAmong(keyRanks, candidate, keys.Keys, rankOf);
      RanksWith(keys.Keys, rankOf, id);
      keys := keys[id := entry];
      assert keys.Keys == old(keys).Keys + {id};
      PushRank(candidate);
      PushedElements(before, keyRanks, candidate);
    }

    /** Compares an entry with the largest one of a full cache, and drops that one when
        it is larger. */
    method MakeRoom(candidate: Rank, ghost before: set<Rank>) returns (joins: bool)
      requires limit > 0 && Matches(keyRanks, keys, rankOf) && |keys| >= limit && |keyRanks| == |keys|
      requires LowestOf(Ranks(keys.Keys, rankOf), before, limit) && candidate !in Ranks(keys.Keys, rankOf)
      modifies this`keys, this`keyRanks, this`keyAdmissionWork
      ensures Matches(keyRanks, keys, rankOf) && |keyRanks| <= limit
      ensures forall id :: id in keys ==> id in old(keys) && keys[id] == old(keys)[id]
      ensures if joins then LowestOf(Ranks(keys.Keys, rankOf) + {candidate}, before + {candidate}, limit)
              else keys == old(keys) && LowestOf(Ranks(keys.Keys, rankOf), before + {candidate}, limit)
      ensures keyAdmissionWork <= old(keyAdmissionWork) + 2 * Depth(limit) + 3
    {
      hide Compare, Matches, LowestOf, Ranks, Elements, Depth;
      ghost var kept := Ranks(keys.Keys, rankOf);
      KeyCount(keyRanks, keys, rankOf);
      LowestIsFull(kept, before, limit);
      RootDecides(keyRanks, keys, rankOf, candidate);
      DepthGrows(|keyRanks|, limit);
      var order := CompareRanks(candidate, keyRanks[0]);
      if order >= 0 {
        LowestRejects(kept, before, limit, candidate);
        return false;
      }
      LowestExchanges(kept, before, limit, keyRanks[0], candidate);
      DropLargest();
      return true;
    }

    /** Offers an entry: the cache keeps the entries with the lowest ranks. */
    method Retain(id: string, entry: Entry<V>)
      requires Valid() && entry.rank == rankOf(id)
      modifies this
      ensures Valid() && offered == old(offered) + {Rank(id, entry.rank)}
      ensures id in keys ==> keys[id] == entry
      ensures forall other :: other in keys && other != id ==> other in old(keys) && keys[other] == old(keys)[other]
      ensures forall kept, left :: kept in keys && left in offered && left.id !in keys ==>
                keys[kept].rank < left.rank || (keys[kept].rank == left.rank && StringBefore(kept, left.id))
      ensures |keys| == if |offered| < limit then |offered| else limit
      ensures keyAdmissionWork <= old(keyAdmissionWork) + 3 * Depth(limit) + 3
    {
      hide Compare, Matches, LowestOf, Ranks, Elements, Depth;
      var candidate := Rank(id, entry.rank);
      ghost var kept := Ranks(keys.Keys, rankOf);
      KeyCount(keyRanks, keys, rankOf);
      AmongKeys(keys, rankOf, id);
      offered := offered + {candidate};
      if id in keys {
        KeptIsOffered(kept, old(offered), limit, candidate);
        assert offered == old(offered);
        ValueReplaced(keyRanks, keys, rankOf, id, entry);
        keys := keys[id := entry];
        KeysAreLowest(keyRanks, keys, rankOf, offered, limit);
        return;
      }
      if |keys| >= limit {
        var joins := MakeRoom(candidate, old(offered));
        if !joins {
          KeysAreLowest(keyRanks, keys, rankOf, offered, limit);
          return;
        }
        DepthGrows(|keyRanks|, limit);
      } else {
        LowestWithRoom(kept, old(offered), limit, candidate);
        DepthGrows(|keyRanks|, limit);
      }
      AddEntry(id, entry);
      KeysAreLowest(keyRanks, keys, rankOf, offered, limit);
    }
  }

  lemma KeysAreLowest<V(!new)>(h: seq<Rank>, keys: map<string, Entry<V>>, rankOf: string -> nat, offered: set<Rank>, limit: nat)
    requires Matches(h, keys, rankOf) && LowestOf(Ranks(keys.Keys, rankOf), offered, limit)
    ensures forall kept, left :: kept in keys && left in offered && left.id !in keys ==>
              keys[kept].rank < left.rank || (keys[kept].rank == left.rank && StringBefore(kept, left.id))
    ensures |keys| == if |offered| < limit then |offered| else limit
  {
    hide Heap, Distinct, StringBefore;
    KeyCount(h, keys, rankOf);
    forall kept, left | kept in keys && left in offered && left.id !in keys
      ensures keys[kept].rank < left.rank || (keys[kept].rank == left.rank && StringBefore(kept, left.id))
    {
      assert Rank(kept, rankOf(kept)) in Ranks(keys.Keys, rankOf) && left !in Ranks(keys.Keys, rankOf);
      assert Before(Rank(kept, rankOf(kept)), left);
    }
  }

  ghost function Ranks(ids: set<string>, rankOf: string -> nat): set<Rank> {
    set id | id in ids :: Rank(id, rankOf(id))
  }

  lemma RootIsIn(h: seq<Rank>)
    requires |h| > 0
    ensures h[0] in Elements(h)
  {
    assert h[0] in h;
  }

  lemma KeyCount<V(!new)>(h: seq<Rank>, keys: map<string, Entry<V>>, rankOf: string -> nat)
    requires Matches(h, keys, rankOf)
    ensures |keys| == |Ranks(keys.Keys, rankOf)| == |h|
  {
    hide Heap, Ranks;
    SizeOfRanks(keys.Keys, rankOf);
    DistinctCount(h);
  }

  lemma {:induction false} DistinctCount(h: seq<Rank>)
    requires Distinct(h)
    ensures |Elements(h)| == |h|
  {
    if h == [] {
      assert Elements(h) == {};
    } else {
      var n := |h| - 1;
      assert h == h[..n] + [h[n]];
      PoppedElements(h, h[..n], h[n]);
      DistinctCount(h[..n]);
      assert h[n] in h;
      assert Elements(h) == Elements(h[..n]) + {h[n]};
    }
  }

  lemma AmongKeys<V(!new)>(keys: map<string, Entry<V>>, rankOf: string -> nat, id: string)
    ensures id in keys <==> Rank(id, rankOf(id)) in Ranks(keys.Keys, rankOf)
  {
  }

  lemma ValueReplaced<V(!new)>(h: seq<Rank>, keys: map<string, Entry<V>>, rankOf: string -> nat, id: string, entry: Entry<V>)
    requires Matches(h, keys, rankOf) && id in keys && entry.rank == rankOf(id)
    ensures keys[id := entry].Keys == keys.Keys && Matches(h, keys[id := entry], rankOf)
  {
    hide Heap, Elements, Ranks, Distinct;
    assert keys[id := entry].Keys == keys.Keys;
  }

  lemma RootDecides<V(!new)>(h: seq<Rank>, keys: map<string, Entry<V>>, rankOf: string -> nat, r: Rank)
    requires Matches(h, keys, rankOf) && |h| > 0 && r !in Ranks(keys.Keys, rankOf)
    ensures var kept := Ranks(keys.Keys, rankOf);
            && h[0] in kept
            && (forall k :: k in kept ==> Compare(k, h[0]) <= 0)
            && (Compare(r, h[0]) >= 0 ==> forall k :: k in kept ==> Before(k, r))
  {
    hide Compare, Heap, Ranks, Elements;
    RootIsAbove(h, r);
  }

  lemma RanksAre(ids: set<string>, rankOf: string -> nat)
    ensures forall r :: r in Ranks(ids, rankOf) <==> r.id in ids && r.rank == rankOf(r.id)
  {
  }

  lemma {:induction false} SizeOfRanks(ids: set<string>, rankOf: string -> nat)
    ensures |Ranks(ids, rankOf)| == |ids|
  {
    if ids == {} {
      assert Ranks(ids, rankOf) == {};
    } else {
      var id :| id in ids;
      SizeOfRanks(ids - {id}, rankOf);
      assert Ranks(ids, rankOf) == Ranks(ids - {id}, rankOf) + {Rank(id, rankOf(id))};
    }
  }

  lemma RanksWith(ids: set<string>, rankOf: string -> nat, id: string)
    ensures Ranks(ids + {id}, rankOf) == Ranks(ids, rankOf) + {Rank(id, rankOf(id))}
  {
  }

  lemma RanksWithout(ids: set<string>, rankOf: string -> nat, r: Rank)
    requires r in Ranks(ids, rankOf)
    ensures r.id in ids && Ranks(ids - {r.id}, rankOf) == Ranks(ids, rankOf) - {r}
  {
  }

  lemma KeptIsOffered(kept: set<Rank>, offered: set<Rank>, limit: nat, r: Rank)
    requires LowestOf(kept, offered, limit) && r in kept
    ensures r in offered
  {
  }

  lemma LowestIsFull(kept: set<Rank>, offered: set<Rank>, limit: nat)
    requires LowestOf(kept, offered, limit) && |kept| >= limit
    ensures |kept| == limit
  {
  }

  /** The root is the largest entry, so it decides for all of them. */
  lemma RootIsAbove(h: seq<Rank>, r: Rank)
    requires Heap(h) && |h| > 0
    ensures h[0] in Elements(h)
    ensures forall k :: k in Elements(h) ==> Compare(k, h[0]) <= 0
    ensures Compare(r, h[0]) >= 0 && r !in Elements(h) ==> forall k :: k in Elements(h) ==> Before(k, r)
  {
    hide Compare, Heap;
    assert h[0] in h;
    forall k | k in Elements(h)
      ensures Compare(k, h[0]) <= 0
      ensures Compare(r, h[0]) >= 0 && r !in Elements(h) ==> Before(k, r)
    {
      assert k in h;
      var i :| 0 <= i < |h| && h[i] == k;
      RootIsLargest(h, i);
      ComparesBack(r, h[0]);
      OrderIsTransitive(k, h[0], r);
      RanksAreOrdered(k, r);
    }
  }

  lemma PoppedElements(before: seq<Rank>, after: seq<Rank>, r: Rank)
    requires Distinct(before) && multiset(after) + multiset{r} == multiset(before)
    ensures Distinct(after) && Elements(after) == Elements(before) - {r} && |after| + 1 == |before|
  {
    forall k
      ensures multiset(after)[k] <= 1 && (k in Elements(after) <==> k in Elements(before) - {r})
    {
      assert multiset(before)[k] == (multiset(after) + multiset{r})[k];
      assert multiset(before)[k] <= 1;
    }
    assert |multiset(before)| == |multiset(after)| + 1;
  }

  lemma PushedElements(before: seq<Rank>, after: seq<Rank>, r: Rank)
    requires Distinct(before) && r !in Elements(before) && multiset(after) == multiset(before) + multiset{r}
    ensures Distinct(after) && Elements(after) == Elements(before) + {r} && |after| == |before| + 1
  {
    forall k
      ensures multiset(after)[k] <= 1 && (k in Elements(after) <==> k in Elements(before) + {r})
    {
      assert multiset(after)[k] == (multiset(before) + multiset{r})[k];
      assert multiset(before)[k] <= 1;
    }
    assert |multiset(after)| == |multiset(before)| + 1;
  }

  lemma NotAmong(h: seq<Rank>, r: Rank, ids: set<string>, rankOf: string -> nat)
    requires Elements(h) == Ranks(ids, rankOf) && r.id !in ids
    ensures r !in Elements(h)
  {
  }

  /** Two caches of one size that were offered the same entries, in whatever order and
      however often, remember the same keys. */
  lemma OrderDoesNotMatter<V(!new)>(a: RankCache<V>, b: RankCache<V>)
    requires a.Valid() && b.Valid() && a.limit == b.limit && a.rankOf == b.rankOf && a.offered == b.offered
    ensures a.keys.Keys == b.keys.Keys
    ensures Elements(a.keyRanks) == Elements(b.keyRanks)
  {
    hide Heap, Distinct, LowestOf;
    LowestIsUnique(Ranks(a.keys.Keys, a.rankOf), Ranks(b.keys.Keys, b.rankOf), a.offered, a.limit);
    forall id
      ensures id in a.keys.Keys <==> id in b.keys.Keys
    {
      RanksAre(a.keys.Keys, a.rankOf);
      RanksAre(b.keys.Keys, b.rankOf);
      assert Rank(id, a.rankOf(id)) in Ranks(a.keys.Keys, a.rankOf) <==> Rank(id, a.rankOf(id)) in Ranks(b.keys.Keys, b.rankOf);
    }
  }

  lemma OnlyOne(before: seq<Rank>, after: seq<Rank>)
    requires |before| == 1 && after == before[..0]
    ensures Heap(after) && multiset(after) + multiset{before[0]} == multiset(before)
  {
    assert before == [before[0]];
  }

  lemma DepthOfChild(parent: nat, child: nat)
    requires child > 0 && Up(child) == parent
    ensures Depth(child) == Depth(parent) + 1
  {
  }

  lemma ChosenChild(h: seq<Rank>, parent: nat, child: nat)
    requires parent * 2 + 1 < |h|
    requires child == if parent * 2 + 2 < |h| && Compare(h[parent * 2 + 1], h[parent * 2 + 2]) < 0 then parent * 2 + 2 else parent * 2 + 1
    ensures LargestChild(h, parent, child)
  {
    hide Compare;
    RanksAreOrdered(h[child], h[child]);
    if child == parent * 2 + 2 {
      ComparesBack(h[parent * 2 + 2], h[parent * 2 + 1]);
    }
  }

  lemma NoneLarger(h: seq<Rank>, parent: nat, child: nat)
    requires parent < |h| && LargestChild(h, parent, child) && Compare(h[parent], h[child]) >= 0
    ensures forall i :: 0 < i < |h| && Up(i) == parent ==> Compare(h[parent], h[i]) >= 0
  {
    hide Compare, LargestChild;
    forall i | 0 < i < |h| && Up(i) == parent
      ensures Compare(h[parent], h[i]) >= 0
    {
      LargerChildIsLarger(h, parent, child, i);
    }
  }
}
