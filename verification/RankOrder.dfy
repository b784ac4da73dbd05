/** The order of the duration-key cache: by rank, and then by ID. */
module RankOrder {
  import opened FiniteSets

  /** Whether a string sorts before another, byte by byte. */
  predicate StringBefore(a: string, b: string) {
    b != [] && (a == [] || a[0] < b[0] || (a[0] == b[0] && StringBefore(a[1..], b[1..])))
  }

  /** It does when it is the beginning of the other, or when the first character in
      which they differ is the lower one. */
  lemma {:induction false} StringBeforeMeans(a: string, b: string)
    ensures StringBefore(a, b)
            <==> exists n :: 0 <= n <= |a| && n < |b| && a[..n] == b[..n] && (n == |a| || a[n] < b[n])
  {
    if a == [] || b == [] {
      assert b != [] ==> a[..0] == b[..0];
    } else {
      StringBeforeMeans(a[1..], b[1..]);
      if StringBefore(a, b) {
        if a[0] < b[0] {
          assert a[..0] == b[..0];
        } else {
          var n :| 0 <= n <= |a[1..]| && n < |b[1..]| && a[1..][..n] == b[1..][..n] && (n == |a[1..]| || a[1..][n] < b[1..][n]);
          assert a[..n + 1] == [a[0]] + a[1..][..n] && b[..n + 1] == [b[0]] + b[1..][..n];
        }
      }
      if n :| 0 <= n <= |a| && n < |b| && a[..n] == b[..n] && (n == |a| || a[n] < b[n]) {
        if n > 0 {
          assert a[..n][0] == b[..n][0];
          assert a[1..][..n - 1] == a[..n][1..] && b[1..][..n - 1] == b[..n][1..];
        }
      }
    }
  }

  lemma {:induction false} StringsAreOrdered(a: string, b: string)
    ensures !(StringBefore(a, b) && StringBefore(b, a))
    ensures a == b || StringBefore(a, b) || StringBefore(b, a)
    ensures !StringBefore(a, a)
  {
    if a == [] {
    } else {
      StringsAreOrdered(a[1..], a[1..]);
      if b != [] {
        StringsAreOrdered(a[1..], b[1..]);
        assert a == [a[0]] + a[1..] && b == [b[0]] + b[1..];
      }
    }
  }

  lemma {:induction false} StringOrderIsTransitive(a: string, b: string, c: string)
    requires StringBefore(a, b) && StringBefore(b, c)
    ensures StringBefore(a, c)
  {
    if a == [] {
    } else {
      if StringBefore(a[1..], b[1..]) && StringBefore(b[1..], c[1..]) {
        StringOrderIsTransitive(a[1..], b[1..], c[1..]);
      }
    }
  }

  datatype Rank = Rank(id: string, rank: nat)

  function Compare(a: Rank, b: Rank): int {
    if a.rank < b.rank then -1
    else if a.rank > b.rank then 1
    else if StringBefore(a.id, b.id) then -1
    else if StringBefore(b.id, a.id) then 1
    else 0
  }

  predicate Before(a: Rank, b: Rank) {
    Compare(a, b) < 0
  }

  lemma RanksAreOrdered(a: Rank, b: Rank)
    ensures Before(a, b) <==> Compare(b, a) > 0
    ensures Compare(a, b) == 0 <==> a == b
  {
    StringsAreOrdered(a.id, b.id);
  }

  lemma OrderIsTransitive(a: Rank, b: Rank, c: Rank)
    ensures Compare(a, b) <= 0 && Compare(b, c) <= 0 ==> Compare(a, c) <= 0
    ensures Before(a, b) && Compare(b, c) <= 0 ==> Before(a, c)
    ensures Compare(a, b) <= 0 && Before(b, c) ==> Before(a, c)
  {
    hide StringBefore;
    StringsAreOrdered(a.id, b.id);
    StringsAreOrdered(b.id, c.id);
    StringsAreOrdered(a.id, c.id);
    if StringBefore(a.id, b.id) && StringBefore(b.id, c.id) {
      StringOrderIsTransitive(a.id, b.id, c.id);
    }
  }

  // ----- The lowest entries -----

  /** The entries of a set with the lowest ranks, up to a limit. */
  ghost predicate LowestOf(kept: set<Rank>, offered: set<Rank>, limit: nat) {
    && kept <= offered
    && |kept| == (if |offered| < limit then |offered| else limit)
    && forall k, o :: k in kept && o in offered && o !in kept ==> Before(k, o)
  }

  /** They are the same whatever order they were offered in. */
  lemma LowestIsUnique(a: set<Rank>, b: set<Rank>, offered: set<Rank>, limit: nat)
    requires LowestOf(a, offered, limit) && LowestOf(b, offered, limit)
    ensures a == b
  {
    hide Compare;
    forall x, y | x in a && x !in b && y in b && y !in a
      ensures false
    {
      assert Before(x, y) && Before(y, x);
      RanksAreOrdered(x, y);
    }
    if a <= b {
      EqualWhenAsLarge(a, b);
    } else {
      assert b <= a;
      EqualWhenAsLarge(b, a);
    }
  }

  /** A new entry joins while there is room. */
  lemma LowestWithRoom(kept: set<Rank>, offered: set<Rank>, limit: nat, r: Rank)
    requires LowestOf(kept, offered, limit) && r !in kept && |kept| < limit
    ensures LowestOf(kept + {r}, offered + {r}, limit)
  {
    EqualWhenAsLarge(kept, offered);
  }

  /** A full set keeps its entries when none is above the new one. */
  lemma LowestRejects(kept: set<Rank>, offered: set<Rank>, limit: nat, r: Rank)
    requires LowestOf(kept, offered, limit) && |kept| == limit && forall k :: k in kept ==> Before(k, r)
    ensures LowestOf(kept, offered + {r}, limit)
  {
    if r !in offered {
      assert |offered + {r}| == |offered| + 1;
    } else {
      assert offered + {r} == offered;
    }
    SubsetIsSmaller(kept, offered);
  }

  /** A full set exchanges its largest entry for a lower one. */
  lemma LowestExchanges(kept: set<Rank>, offered: set<Rank>, limit: nat, largest: Rank, r: Rank)
    requires LowestOf(kept, offered, limit) && |kept| == limit && r !in kept && largest in kept && Before(r, largest)
    requires forall k :: k in kept ==> Compare(k, largest) <= 0
    ensures LowestOf(kept - {largest} + {r}, offered + {r}, limit)
  {
    hide Compare;
    var next, all := kept - {largest} + {r}, offered + {r};
    SubsetIsSmaller(kept, offered);
    SubsetIsSmaller(next, all);
    forall k, o | k in next && o in all && o !in next
      ensures Before(k, o)
    {
      RanksAreOrdered(k, largest);
      OrderIsTransitive(k, largest, o);
    }
  }
}
