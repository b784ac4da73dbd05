/** Addresses of both families, inclusive ranges of them, and the operations that
    merge, subtract, intersect and count ranges. */
module AddressRanges {

  datatype Family = V4 | V6

  const LAST4: nat := 0xffff_ffff
  const LAST6: nat := 0xffff_ffff_ffff_ffff_ffff_ffff_ffff_ffff

  /** An address, or the zero address of neither family. */
  datatype AnyAddr = NoAddr | Addr(family: Family, value: nat)

  function Last(family: Family): nat {
    if family.V4? then LAST4 else LAST6
  }

  type Addr = a: AnyAddr | a.Addr? ==> a.value <= Last(a.family) witness NoAddr

  function BitLen(a: Addr): nat {
    match a
    case NoAddr => 0
    case Addr(V4, _) => 32
    case Addr(V6, _) => 128
  }

  function Compare(a: Addr, b: Addr): int {
    if BitLen(a) != BitLen(b) then (if BitLen(a) < BitLen(b) then -1 else 1)
    else if a.NoAddr? || a.value == b.value then 0
    else if a.value < b.value then -1
    else 1
  }

  function Next(a: Addr): Addr {
    if a.NoAddr? || a.value == Last(a.family) then NoAddr else Addr(a.family, a.value + 1)
  }

  function Prev(a: Addr): Addr {
    if a.NoAddr? || a.value == 0 then NoAddr else Addr(a.family, a.value - 1)
  }

  /** The inclusive span of addresses between two ends. */
  datatype Range = Range(from: Addr, to: Addr) {
    predicate Valid() {
      from.Addr? && to.Addr? && BitLen(from) == BitLen(to) && Compare(from, to) <= 0
    }
  }

  // ----- What ranges denote -----

  /** The place of an address among all addresses. A place that no address has
      lies between the families, so an address of one family is never next to
      one of the other. */
  function Place(a: Addr): nat
    requires a.Addr?
  {
    if a.family.V4? then a.value else LAST4 + 2 + a.value
  }

  lemma PlaceKeepsOrder(a: Addr, b: Addr)
    requires a.Addr? && b.Addr?
    ensures Compare(a, b) < 0 <==> Place(a) < Place(b)
    ensures Compare(a, b) == 0 <==> a == b
    ensures a == b <==> Place(a) == Place(b)
    ensures Next(a) == b <==> Place(a) + 1 == Place(b)
    ensures Prev(a) == b <==> Place(a) == Place(b) + 1
  {
  }

  predicate Between(lo: int, p: int, hi: int) {
    lo <= p <= hi
  }

  ghost function Span(lo: int, hi: int): set<int> {
    set p: int | lo <= p <= hi && Between(lo, p, hi)
  }

  /** The places of a range's addresses. A range that is not valid has none. */
  ghost function RangePlaces(r: Range): set<int> {
    if r.Valid() then Span(Place(r.from), Place(r.to)) else {}
  }

  ghost function Places(ranges: seq<Range>): set<int> {
    if ranges == [] then {}
    else Places(ranges[..|ranges| - 1]) + RangePlaces(ranges[|ranges| - 1])
  }

  predicate AllValid(ranges: seq<Range>) {
    forall i :: 0 <= i < |ranges| ==> ranges[i].Valid()
  }

  /** Valid, in address order, disjoint and not adjacent within a family. */
  ghost predicate Canonical(ranges: seq<Range>) {
    && AllValid(ranges)
    && forall i, j :: 0 <= i < j < |ranges| ==> Place(ranges[i].to) + 1 < Place(ranges[j].from)
  }

  lemma {:induction false} PlacesAppend(ranges: seq<Range>, r: Range)
    ensures Places(ranges + [r]) == Places(ranges) + RangePlaces(r)
  {
    assert (ranges + [r])[..|ranges|] == ranges;
  }

  lemma {:induction false} PlacesPrefix(ranges: seq<Range>, n: nat)
    requires n < |ranges|
    ensures Places(ranges[..n + 1]) == Places(ranges[..n]) + RangePlaces(ranges[n])
  {
    assert ranges[..n + 1] == ranges[..n] + [ranges[n]];
    PlacesAppend(ranges[..n], ranges[n]);
  }

  /** A place is held when some range holds it. */
  lemma {:induction false} Held(ranges: seq<Range>, p: int)
    ensures p in Places(ranges) <==> exists i :: 0 <= i < |ranges| && p in RangePlaces(ranges[i])
  {
    hide RangePlaces;
    if ranges == [] {
    } else {
      var n := |ranges| - 1;
      Held(ranges[..n], p);
      forall i | 0 <= i < n
        ensures ranges[..n][i] == ranges[i]
      {
      }
      if i :| 0 <= i < |ranges| && p in RangePlaces(ranges[i]) {
        if i < n {
          assert p in RangePlaces(ranges[..n][i]);
        }
      }
    }
  }

  lemma OneRange(r: Range)
    ensures Places([r]) == RangePlaces(r)
  {
    NoPlaces();
    PlacesAppend([], r);
    assert [] + [r] == [r];
  }

  lemma ValidAt(ranges: seq<Range>, i: nat)
    requires AllValid(ranges) && i < |ranges|
    ensures ranges[i].Valid()
  {
  }

  // ----- Canonical form -----

  /** The last range of a canonical form holds its last place, and the others end
      at least two places before it. */
  lemma {:induction false} CanonicalPlaces(ranges: seq<Range>, n: nat)
    requires Canonical(ranges) && |ranges| == n + 1
    ensures Places(ranges) == Places(ranges[..n]) + Span(Place(ranges[n].from), Place(ranges[n].to))
    ensures Place(ranges[n].from) in Places(ranges) && Place(ranges[n].to) in Places(ranges)
    ensures forall p :: p in Places(ranges[..n]) ==> p + 1 < Place(ranges[n].from)
  {
    hide Places;
    PlacesPrefix(ranges, n);
    assert ranges[..n + 1] == ranges;
    PlaceKeepsOrder(ranges[n].from, ranges[n].to);
    forall p | p in Places(ranges[..n])
      ensures p + 1 < Place(ranges[n].from)
    {
      Held(ranges[..n], p);
      var i :| 0 <= i < n && p in RangePlaces(ranges[..n][i]);
    }
  }

  /** A set of addresses has one canonical form. */
  lemma {:induction false} CanonicalIsUnique(a: seq<Range>, b: seq<Range>)
    requires Canonical(a) && Canonical(b) && Places(a) == Places(b)
    ensures a == b
    decreases |a|
  {
    hide Places;
    NoPlaces();
    if a == [] || b == [] {
      if a != [] {
        CanonicalPlaces(a, |a| - 1);
      }
      if b != [] {
        CanonicalPlaces(b, |b| - 1);
      }
    } else {
      var m, n := |a| - 1, |b| - 1;
      SameLast(a, m, b, n);
      CanonicalIsUnique(a[..m], b[..n]);
      assert a == a[..m] + [a[m]] && b == b[..n] + [b[n]];
    }
  }

  lemma NoPlaces()
    ensures Places([]) == {}
  {
  }

  lemma {:induction false} SameLast(a: seq<Range>, m: nat, b: seq<Range>, n: nat)
    requires Canonical(a) && Canonical(b) && Places(a) == Places(b) && |a| == m + 1 && |b| == n + 1
    ensures a[m] == b[n] && Places(a[..m]) == Places(b[..n])
    ensures Canonical(a[..m]) && Canonical(b[..n])
  {
    hide Places;
    CanonicalPlaces(a, m);
    CanonicalPlaces(b, n);
    LastRun(Places(a[..m]), Place(a[m].from), Place(a[m].to), Places(b[..n]), Place(b[n].from), Place(b[n].to));
    PlaceKeepsOrder(a[m].from, b[n].from);
    PlaceKeepsOrder(a[m].to, b[n].to);
  }

  /** The last run of places in a set is one and the same however it is found. */
  lemma LastRun(a: set<int>, aFrom: int, aTo: int, b: set<int>, bFrom: int, bTo: int)
    requires aFrom <= aTo && bFrom <= bTo && a + Span(aFrom, aTo) == b + Span(bFrom, bTo)
    requires forall p :: p in a ==> p + 1 < aFrom
    requires forall p :: p in b ==> p + 1 < bFrom
    ensures aFrom == bFrom && aTo == bTo && a == b
  {
    var all := a + Span(aFrom, aTo);
    assert aTo in all && bTo in all && aTo == bTo;
    assert aFrom - 1 !in a + Span(aFrom, aTo) && bFrom - 1 !in b + Span(bFrom, bTo);
  }

  // ----- Merge -----

  /** The order that Merge sorts by. */
  predicate InOrder(a: Range, b: Range) {
    var from := Compare(a.from, b.from);
    from < 0 || (from == 0 && Compare(a.to, b.to) <= 0)
  }

  predicate Sorted(ranges: seq<Range>) {
    forall i, j :: 0 <= i < j < |ranges| ==> InOrder(ranges[i], ranges[j])
  }

  function Insert(ranges: seq<Range>, r: Range): seq<Range> {
    if ranges == [] || InOrder(r, ranges[0]) then [r] + ranges else [ranges[0]] + Insert(ranges[1..], r)
  }

  /** The sorted ranges. No two different ranges are equal in the order, so every
      sort gives the same. */
  function Sort(ranges: seq<Range>): seq<Range> {
    if ranges == [] then [] else Insert(Sort(ranges[..|ranges| - 1]), ranges[|ranges| - 1])
  }

  lemma {:induction false} InsertKeeps(ranges: seq<Range>, r: Range)
    ensures multiset(Insert(ranges, r)) == multiset(ranges) + multiset{r}
  {
    hide InOrder;
    if ranges != [] && !InOrder(r, ranges[0]) {
      InsertKeeps(ranges[1..], r);
      assert ranges == [ranges[0]] + ranges[1..];
    }
  }

  lemma {:induction false} InsertSorts(ranges: seq<Range>, r: Range)
    requires Sorted(ranges)
    ensures Sorted(Insert(ranges, r))
  {
    hide InOrder;
    if ranges == [] {
    } else if InOrder(r, ranges[0]) {
      forall i | 0 <= i < |ranges|
        ensures InOrder(r, ranges[i])
      {
        if i > 0 {
          OrderIsTransitive(r, ranges[0], ranges[i]);
        }
      }
    } else {
      InsertSorts(ranges[1..], r);
      InsertKeeps(ranges[1..], r);
      OrderIsTotal(r, ranges[0]);
      var rest := Insert(ranges[1..], r);
      forall i | 0 <= i < |rest|
        ensures InOrder(ranges[0], rest[i])
      {
        assert rest[i] in multiset(rest);
        if rest[i] != r {
          assert rest[i] in ranges[1..];
        }
      }
    }
  }

  lemma OrderIsTransitive(a: Range, b: Range, c: Range)
    requires InOrder(a, b) && InOrder(b, c)
    ensures InOrder(a, c)
  {
  }

  lemma OrderIsTotal(a: Range, b: Range)
    ensures InOrder(a, b) || InOrder(b, a)
  {
  }

  lemma {:induction false} SortSorts(ranges: seq<Range>)
    ensures Sorted(Sort(ranges))
    ensures multiset(Sort(ranges)) == multiset(ranges)
  {
    hide Sorted, Insert;
    if ranges == [] {
      NothingSorted();
    } else {
      var n := |ranges| - 1;
      SortSorts(ranges[..n]);
      InsertSorts(Sort(ranges[..n]), ranges[n]);
      InsertKeeps(Sort(ranges[..n]), ranges[n]);
      assert ranges == ranges[..n] + [ranges[n]];
    }
  }

  lemma NothingSorted()
    ensures Sorted([])
  {
  }

  lemma SameValid(a: seq<Range>, b: seq<Range>)
    requires multiset(a) == multiset(b) && AllValid(b)
    ensures AllValid(a)
  {
    forall i | 0 <= i < |a|
      ensures a[i].Valid()
    {
      assert a[i] in multiset(b);
    }
  }

  lemma {:induction false} SamePlaces(a: seq<Range>, b: seq<Range>)
    requires multiset(a) == multiset(b)
    ensures Places(a) == Places(b)
  {
    hide Places, RangePlaces;
    forall p
      ensures p in Places(a) <==> p in Places(b)
    {
      Held(a, p);
      Held(b, p);
      if i :| 0 <= i < |a| && p in RangePlaces(a[i]) {
        assert a[i] in multiset(b);
      }
      if i :| 0 <= i < |b| && p in RangePlaces(b[i]) {
        assert b[i] in multiset(a);
      }
    }
  }

  /** The same addresses in canonical form. */
  method Merge(r: seq<Range>) returns (out: seq<Range>)
    ensures Canonical(out) && Places(out) == Places(r)
    ensures |out| <= |r|
  {
    hide Places, RangePlaces, Sort, InOrder, Sorted, Canonical;
    var valid: seq<Range> := [];
    NoPlaces();
    for i := 0 to |r|
      invariant AllValid(valid) && Places(valid) == Places(r[..i]) && |valid| <= i
    {
      PlacesPrefix(r, i);
      if r[i].Valid() {
        PlacesAppend(valid, r[i]);
        valid := valid + [r[i]];
      } else {
        InvalidHoldsNothing(r[i]);
      }
    }
    assert r[..|r|] == r;
    var sorted := Sort(valid);
    SortSorts(valid);
    SameValid(sorted, valid);
    SamePlaces(sorted, valid);
    assert |multiset(sorted)| == |multiset(valid)|;
    out := [];
    NothingMerged(sorted);
    for i := 0 to |sorted|
      invariant Places(out) == Places(sorted[..i])
      invariant Merging(out, sorted, i) && |out| <= i
    {
      var item := sorted[i];
      PlacesPrefix(sorted, i);
      var n := |out|;
      if n > 0 {
        var last := out[n - 1];
        if BitLen(item.from) == BitLen(last.to) && (Compare(item.from, last.to) <= 0 || item.from == Next(last.to)) {
          JoinLast(out, sorted, i);
          if Compare(item.to, last.to) > 0 {
            out := out[n - 1 := Range(last.from, item.to)];
          }
          continue;
        }
      }
      StartNext(out, sorted, i);
      PlacesAppend(out, item);
      out := out + [item];
    }
    assert sorted[..|sorted|] == sorted;
    MergedAll(out, sorted);
  }

  lemma InvalidHoldsNothing(r: Range)
    requires !r.Valid()
    ensures RangePlaces(r) == {}
  {
  }

  /** Merging has taken the first `i` of the sorted ranges. */
  ghost predicate Merging(out: seq<Range>, sorted: seq<Range>, i: nat) {
    && i <= |sorted| && AllValid(sorted) && Sorted(sorted) && Canonical(out)
    && forall k :: i <= k < |sorted| && out != [] ==> Place(out[|out| - 1].from) <= Place(sorted[k].from)
  }

  lemma NothingMerged(sorted: seq<Range>)
    requires AllValid(sorted) && Sorted(sorted)
    ensures Merging([], sorted, 0)
  {
  }

  lemma MergedAll(out: seq<Range>, sorted: seq<Range>)
    requires Merging(out, sorted, |sorted|)
    ensures Canonical(out)
  {
  }

  lemma {:induction false} JoinLast(out: seq<Range>, sorted: seq<Range>, i: nat)
    requires Merging(out, sorted, i) && i < |sorted| && out != []
    requires var last, item := out[|out| - 1], sorted[i];
             BitLen(item.from) == BitLen(last.to) && (Compare(item.from, last.to) <= 0 || item.from == Next(last.to))
    ensures var last, item := out[|out| - 1], sorted[i];
            var joined := if Compare(item.to, last.to) > 0 then out[|out| - 1 := Range(last.from, item.to)] else out;
            Merging(joined, sorted, i + 1) && Places(joined) == Places(out) + RangePlaces(item)
  {
    hide Places, Sorted;
    var n := |out| - 1;
    var last, item := out[n], sorted[i];
    PlaceKeepsOrder(item.from, last.to);
    PlaceKeepsOrder(item.to, last.to);
    PlaceKeepsOrder(item.from, item.to);
    PlaceKeepsOrder(last.from, last.to);
    PlacesAppend(out[..n], last);
    assert out == out[..n] + [last];
    if Compare(item.to, last.to) > 0 {
      var r := Range(last.from, item.to);
      PlacesAppend(out[..n], r);
      assert out[n := r] == out[..n] + [r];
      PlaceKeepsOrder(last.from, item.to);
      assert RangePlaces(r) == RangePlaces(last) + RangePlaces(item);
    } else {
      assert RangePlaces(item) <= RangePlaces(last);
    }
  }

  lemma {:induction false} StartNext(out: seq<Range>, sorted: seq<Range>, i: nat)
    requires Merging(out, sorted, i) && i < |sorted|
    requires out != [] ==>
               var last, item := out[|out| - 1], sorted[i];
               !(BitLen(item.from) == BitLen(last.to) && (Compare(item.from, last.to) <= 0 || item.from == Next(last.to)))
    ensures Merging(out + [sorted[i]], sorted, i + 1)
  {
    var item := sorted[i];
    forall k | i < k < |sorted|
      ensures Place(item.from) <= Place(sorted[k].from)
    {
      assert InOrder(item, sorted[k]);
      PlaceKeepsOrder(item.from, sorted[k].from);
    }
    if out != [] {
      var last := out[|out| - 1];
      PlaceKeepsOrder(item.from, last.to);
      PlaceKeepsOrder(last.to, item.from);
      PlaceKeepsOrder(last.from, item.from);
      PlaceKeepsOrder(last.from, last.to);
      assert Place(last.to) + 1 < Place(item.from);
    }
  }

  // ----- Subtract -----

  /** An address between two of one family is of that family. */
  lemma Inside(from: Addr, a: Addr, to: Addr)
    requires from.Addr? && a.Addr? && to.Addr? && from.family == to.family
    requires Place(from) <= Place(a) <= Place(to)
    ensures a.family == to.family
    ensures Place(a) < Place(to) ==> Next(a).Addr? && Place(Next(a)) == Place(a) + 1
    ensures Place(from) < Place(a) ==> Prev(a).Addr? && Place(Prev(a)) == Place(a) - 1
  {
  }

  /** The addresses of b from some place on, when its first k ranges end before. */
  lemma {:induction false} HeldFrom(b: seq<Range>, k: nat, from: int)
    requires Canonical(b) && k <= |b|
    requires forall m :: 0 <= m < k ==> Place(b[m].to) < from
    ensures forall p :: p in Places(b) && from <= p ==> k < |b| && Place(b[k].from) <= p
    ensures k < |b| ==> Span(Place(b[k].from), Place(b[k].to)) <= Places(b)
  {
    hide Places;
    forall p | p in Places(b) && from <= p
      ensures k < |b| && Place(b[k].from) <= p
    {
      Held(b, p);
      var m :| 0 <= m < |b| && p in RangePlaces(b[m]);
      assert m == k || (k < m && Place(b[k].to) + 1 < Place(b[m].from));
      if k < m {
        PlaceKeepsOrder(b[k].from, b[k].to);
      }
    }
    if k < |b| {
      forall p | p in RangePlaces(b[k])
        ensures p in Places(b)
      {
        Held(b, p);
      }
    }
  }

  /** Subtraction has taken the first i ranges of a, and of the next one the
      addresses before `from`. */
  ghost predicate Subtracting(out: seq<Range>, a: seq<Range>, i: nat, b: seq<Range>, k: nat, from: Addr)
    requires Canonical(a) && Canonical(b) && i < |a| && k <= |b|
  {
    && Canonical(out)
    && from.Addr? && from.family == a[i].to.family && Place(a[i].from) <= Place(from) <= Place(a[i].to)
    && Places(out) == Places(a[..i]) + Span(Place(a[i].from), Place(from) - 1) - Places(b)
    && (out != [] ==> Place(out[|out| - 1].to) + 1 < Place(from))
    && (forall m :: 0 <= m < k ==> Place(b[m].to) < Place(from))
    && (k < |b| ==> Place(from) <= Place(b[k].to))
  }

  /** Subtraction has taken the first i ranges of a. */
  ghost predicate Subtracted(out: seq<Range>, a: seq<Range>, i: nat, b: seq<Range>)
    requires Canonical(a) && Canonical(b) && i <= |a|
  {
    && Canonical(out)
    && Places(out) == Places(a[..i]) - Places(b)
    && (out != [] ==> i > 0 && Place(out[|out| - 1].to) <= Place(a[i - 1].to))
  }

  lemma {:induction false} CanonicalAppend(out: seq<Range>, r: Range)
    requires Canonical(out) && r.Valid()
    requires out != [] ==> Place(out[|out| - 1].to) + 1 < Place(r.from)
    ensures Canonical(out + [r])
  {
    forall i | 0 <= i < |out|
      ensures Place(out[i].to) + 1 < Place(r.from)
    {
      var n := |out| - 1;
      if i < n {
        assert Place(out[i].to) + 1 < Place(out[n].from);
        PlaceKeepsOrder(out[n].from, out[n].to);
      }
    }
  }

  lemma {:induction false} StartsNextRange(out: seq<Range>, a: seq<Range>, i: nat, b: seq<Range>, next: nat)
    requires Canonical(a) && Canonical(b) && i < |a| && next <= |b|
    requires Subtracted(out, a, i, b)
    requires forall m :: 0 <= m < next ==> Place(b[m].to) < Place(a[i].from)
    requires next < |b| ==> Place(a[i].from) <= Place(b[next].to)
    ensures Subtracting(out, a, i, b, next, a[i].from)
  {
    hide Places;
    PlaceKeepsOrder(a[i].from, a[i].to);
    if i > 0 {
      assert Place(a[i - 1].to) + 1 < Place(a[i].from);
    }
    assert Places(a[..i]) + Span(Place(a[i].from), Place(a[i].from) - 1) == Places(a[..i]);
  }

  /** The addresses before the next range of b are taken. */
  lemma {:induction false} TakesGap(out: seq<Range>, a: seq<Range>, i: nat, b: seq<Range>, k: nat, from: Addr)
    requires Canonical(a) && Canonical(b) && i < |a| && k < |b|
    requires Subtracting(out, a, i, b, k, from) && Place(b[k].from) <= Place(a[i].to)
    ensures Place(from) < Place(b[k].from) ==>
              var piece := Range(from, Prev(b[k].from));
              && piece.Valid() && Canonical(out + [piece])
              && Place(piece.to) + 1 == Place(b[k].from)
              && Places(out + [piece]) == Places(a[..i]) + Span(Place(a[i].from), Place(b[k].to)) - Places(b)
    ensures Place(from) >= Place(b[k].from) ==>
              Places(out) == Places(a[..i]) + Span(Place(a[i].from), Place(b[k].to)) - Places(b)
  {
    hide Places;
    HeldFrom(b, k, Place(from));
    if Place(from) < Place(b[k].from) {
      Inside(from, b[k].from, a[i].to);
      var piece := Range(from, Prev(b[k].from));
      PlaceKeepsOrder(from, piece.to);
      CanonicalAppend(out, piece);
      PlacesAppend(out, piece);
    }
  }

  /** The range of b ends within the range of a, which goes on after it. */
  lemma {:induction false} GoesOn(out: seq<Range>, a: seq<Range>, i: nat, b: seq<Range>, k: nat, from: Addr)
    requires Canonical(a) && Canonical(b) && i < |a| && k < |b| && Canonical(out)
    requires from.Addr? && from.family == a[i].to.family && Place(a[i].from) <= Place(from)
    requires Place(from) <= Place(b[k].to) < Place(a[i].to)
    requires out != [] ==> Place(out[|out| - 1].to) < Place(b[k].to)
    requires Places(out) == Places(a[..i]) + Span(Place(a[i].from), Place(b[k].to)) - Places(b)
    ensures Subtracting(out, a, i, b, k + 1, Next(b[k].to))
  {
    hide Places;
    Inside(from, b[k].to, a[i].to);
    PlaceKeepsOrder(b[k].from, b[k].to);
    forall m | 0 <= m < k
      ensures Place(b[m].to) < Place(b[k].to)
    {
      assert Place(b[m].to) + 1 < Place(b[k].from);
    }
    if k + 1 < |b| {
      assert Place(b[k].to) + 1 < Place(b[k + 1].from);
      PlaceKeepsOrder(b[k + 1].from, b[k + 1].to);
    }
  }

  /** The range of b reaches the end of the range of a. */
  lemma {:induction false} Closes(out: seq<Range>, a: seq<Range>, i: nat, b: seq<Range>, k: nat)
    requires Canonical(a) && Canonical(b) && i < |a| && k < |b| && Canonical(out)
    requires Place(a[i].to) <= Place(b[k].to) && Place(b[k].from) <= Place(a[i].to)
    requires out != [] ==> Place(out[|out| - 1].to) <= Place(a[i].to)
    requires Places(out) == Places(a[..i]) + Span(Place(a[i].from), Place(b[k].to)) - Places(b)
    ensures Subtracted(out, a, i + 1, b)
  {
    hide Places;
    PlacesPrefix(a, i);
    WithinOne(b, k, a[i].to);
    assert Span(Place(a[i].from), Place(b[k].to)) == Span(Place(a[i].from), Place(a[i].to)) + Span(Place(a[i].to) + 1, Place(b[k].to));
  }

  lemma {:induction false} WithinOne(b: seq<Range>, k: nat, from: Addr)
    requires Canonical(b) && k < |b| && from.Addr? && Place(b[k].from) <= Place(from)
    ensures Span(Place(from) + 1, Place(b[k].to)) <= Places(b)
  {
    hide Places;
    forall p | p in Span(Place(from) + 1, Place(b[k].to))
      ensures p in Places(b)
    {
      assert p in RangePlaces(b[k]);
      Held(b, p);
    }
  }

  /** No further range of b reaches into the range of a. */
  lemma {:induction false} TakesRest(out: seq<Range>, a: seq<Range>, i: nat, b: seq<Range>, k: nat, from: Addr)
    requires Canonical(a) && Canonical(b) && i < |a| && k <= |b|
    requires Subtracting(out, a, i, b, k, from) && (k < |b| ==> Place(b[k].from) > Place(a[i].to))
    ensures Range(from, a[i].to).Valid()
    ensures Subtracted(out + [Range(from, a[i].to)], a, i + 1, b)
  {
    hide Places;
    var piece := Range(from, a[i].to);
    HeldFrom(b, k, Place(from));
    PlaceKeepsOrder(from, a[i].to);
    CanonicalAppend(out, piece);
    PlacesAppend(out, piece);
    PlacesPrefix(a, i);
  }

  /** What `a` has beyond `b`, in canonical form. */
  method Subtract(a0: seq<Range>, b0: seq<Range>) returns (out: seq<Range>)
    ensures Canonical(out) && Places(out) == Places(a0) - Places(b0)
  {
    hide Places, RangePlaces, Canonical, Subtracting, Subtracted, Compare;
    var a := Merge(a0);
    var b := Merge(b0);
    out := [];
    var next := 0;
    CanonicalIsValid(a);
    CanonicalIsValid(b);
    NothingSubtracted(a, b);
    for i := 0 to |a|
      invariant Subtracted(out, a, i, b) && next <= |b|
      invariant i < |a| ==> forall m :: 0 <= m < next ==> Place(b[m].to) < Place(a[i].from)
    {
      var r := a[i];
      while next < |b| && Compare(b[next].to, r.from) < 0
        invariant next <= |b|
        invariant forall m :: 0 <= m < next ==> Place(b[m].to) < Place(a[i].from)
      {
        PlaceKeepsOrder(b[next].to, r.from);
        next := next + 1;
      }
      var from, open, k := r.from, true, next;
      if next < |b| {
        PlaceKeepsOrder(b[next].to, r.from);
      }
      StartsNextRange(out, a, i, b, next);
      while open && k < |b| && Compare(b[k].from, r.to) <= 0
        invariant k <= |b|
        invariant if open then Subtracting(out, a, i, b, k, from) else Subtracted(out, a, i + 1, b)
        decreases open, |b| - k
      {
        Subtracts(out, a, i, b, k, from);
        PlaceKeepsOrder(from, b[k].from);
        PlaceKeepsOrder(b[k].to, r.to);
        if Compare(from, b[k].from) < 0 {
          out := out + [Range(from, Prev(b[k].from))];
        }
        if Compare(b[k].to, r.to) < 0 {
          from := Next(b[k].to);
        } else {
          open := false;
        }
        k := k + 1;
      }
      if open {
        if k < |b| {
          PlaceKeepsOrder(b[k].from, r.to);
        }
        TakesRest(out, a, i, b, k, from);
        out := out + [Range(from, r.to)];
      }
      RangesGoOn(a, b, i, next);
    }
    assert a[..|a|] == a;
    SubtractedAll(out, a, b);
  }

  lemma Subtracts(out: seq<Range>, a: seq<Range>, i: nat, b: seq<Range>, k: nat, from: Addr)
    requires Canonical(a) && Canonical(b) && i < |a| && k < |b|
    requires Subtracting(out, a, i, b, k, from) && Compare(b[k].from, a[i].to) <= 0
    ensures from.Addr?
    ensures var longer := if Compare(from, b[k].from) < 0 then out + [Range(from, Prev(b[k].from))] else out;
            if Compare(b[k].to, a[i].to) < 0 then Subtracting(longer, a, i, b, k + 1, Next(b[k].to))
            else Subtracted(longer, a, i + 1, b)
  {
    hide Places, Compare;
    PlaceKeepsOrder(b[k].from, a[i].to);
    PlaceKeepsOrder(from, b[k].from);
    PlaceKeepsOrder(b[k].from, b[k].to);
    PlaceKeepsOrder(b[k].to, a[i].to);
    TakesGap(out, a, i, b, k, from);
    var longer := if Compare(from, b[k].from) < 0 then out + [Range(from, Prev(b[k].from))] else out;
    if Compare(b[k].to, a[i].to) < 0 {
      GoesOn(longer, a, i, b, k, from);
    } else {
      Closes(longer, a, i, b, k);
    }
  }

  lemma CanonicalIsValid(ranges: seq<Range>)
    requires Canonical(ranges)
    ensures AllValid(ranges)
  {
  }

  lemma NothingSubtracted(a: seq<Range>, b: seq<Range>)
    requires Canonical(a) && Canonical(b)
    ensures Subtracted([], a, 0, b)
  {
    assert a[..0] == [];
  }

  lemma SubtractedAll(out: seq<Range>, a: seq<Range>, b: seq<Range>)
    requires Canonical(a) && Canonical(b) && Subtracted(out, a, |a|, b) && a[..|a|] == a
    ensures Canonical(out) && Places(out) == Places(a) - Places(b)
  {
  }

  lemma RangesGoOn(a: seq<Range>, b: seq<Range>, i: nat, next: nat)
    requires Canonical(a) && Canonical(b) && i < |a| && next <= |b|
    requires forall m :: 0 <= m < next ==> Place(b[m].to) < Place(a[i].from)
    ensures i + 1 < |a| ==> forall m :: 0 <= m < next ==> Place(b[m].to) < Place(a[i + 1].from)
  {
    if i + 1 < |a| {
      PlaceKeepsOrder(a[i].from, a[i].to);
    }
  }

  // ----- Intersect -----

  /** Intersection has passed the first i ranges of a and the first j of b. */
  ghost predicate Intersecting(out: seq<Range>, a: seq<Range>, i: nat, b: seq<Range>, j: nat)
    requires Canonical(a) && Canonical(b) && i <= |a| && j <= |b|
  {
    && Canonical(out)
    && Places(out) == Places(a[..i]) * Places(b) + Places(a) * Places(b[..j])
    && (out != [] && i < |a| && j < |b| ==>
          var end := Place(out[|out| - 1].to) + 1;
          end < Place(a[i].from) || end < Place(b[j].from))
  }

  /** The addresses that the two ranges share. */
  function Shared(a: Range, b: Range): Range {
    Range(if Compare(a.from, b.from) < 0 then b.from else a.from, if Compare(b.to, a.to) < 0 then b.to else a.to)
  }

  lemma {:induction false} SharedPlaces(a: Range, b: Range)
    requires a.Valid() && b.Valid()
    ensures var shared := Shared(a, b);
            && shared.Valid() == (Compare(shared.from, shared.to) <= 0)
            && RangePlaces(shared) == RangePlaces(a) * RangePlaces(b)
            && (shared.Valid() ==>
                  && (Place(shared.from) == Place(a.from) || Place(shared.from) == Place(b.from))
                  && Place(shared.from) >= Place(a.from) && Place(shared.from) >= Place(b.from)
                  && Place(shared.to) == if Compare(a.to, b.to) < 0 then Place(a.to) else Place(b.to))
  {
    var shared := Shared(a, b);
    PlaceKeepsOrder(a.from, b.from);
    PlaceKeepsOrder(b.to, a.to);
    PlaceKeepsOrder(a.to, b.to);
    PlaceKeepsOrder(shared.from, shared.to);
    PlaceKeepsOrder(a.from, a.to);
    PlaceKeepsOrder(b.from, b.to);
  }

  /** The range of a that ends first meets nothing after the range of b. */
  lemma {:induction false} PassesRange(out: seq<Range>, a: seq<Range>, i: nat, b: seq<Range>, j: nat)
    requires Canonical(a) && Canonical(b) && i < |a| && j < |b| && Intersecting(out, a, i, b, j)
    ensures var shared := Shared(a[i], b[j]);
            var longer := if shared.Valid() then out + [shared] else out;
            if Compare(a[i].to, b[j].to) < 0 then Intersecting(longer, a, i + 1, b, j) else Intersecting(longer, a, i, b, j + 1)
  {
    hide Places, Compare, RangePlaces, Shared;
    var shared := Shared(a[i], b[j]);
    var longer := if shared.Valid() then out + [shared] else out;
    SharedPlaces(a[i], b[j]);
    PlaceKeepsOrder(a[i].to, b[j].to);
    PlaceKeepsOrder(a[i].from, a[i].to);
    PlaceKeepsOrder(b[j].from, b[j].to);
    if shared.Valid() {
      PlacesAppend(out, shared);
      CanonicalAppend(out, shared);
    } else {
      InvalidHoldsNothing(shared);
    }
    assert Places(longer) == Places(out) + RangePlaces(a[i]) * RangePlaces(b[j]);
    if Compare(a[i].to, b[j].to) < 0 {
      PlacesPrefix(a, i);
      MeetsNothingLater(a[i], b, j);
      WithinPrefix(b, j);
      Within(a, i);
      Passed(Places(a), Places(a[..i]), RangePlaces(a[i]), Places(b), Places(b[..j]), RangePlaces(b[j]));
      assert Places(longer) == Places(a[..i + 1]) * Places(b) + Places(a) * Places(b[..j]);
    } else {
      PlacesPrefix(b, j);
      MeetsNothingLater(b[j], a, i);
      WithinPrefix(a, i);
      Within(b, j);
      Passed(Places(b), Places(b[..j]), RangePlaces(b[j]), Places(a), Places(a[..i]), RangePlaces(a[i]));
      assert Places(longer) == Places(a[..i]) * Places(b) + Places(a) * Places(b[..j + 1]);
    }
  }

  lemma Passed(a: set<int>, before: set<int>, r: set<int>, b: set<int>, earlier: set<int>, other: set<int>)
    requires r <= a && earlier <= b && r * b == r * (earlier + other)
    ensures (before + r) * b + a * earlier == before * b + a * earlier + r * other
    ensures earlier * a + b * (before + r) == earlier * a + b * before + other * r
  {
    var left, right := (before + r) * b + a * earlier, before * b + a * earlier + r * other;
    forall p
      ensures p in left <==> p in right
    {
      assert p in r * b <==> p in r * (earlier + other);
    }
    assert left == right;
    assert earlier * a + b * (before + r) == left && earlier * a + b * before + other * r == right;
  }

  /** A range that ends no later than the range j meets only that one and those before. */
  lemma {:induction false} MeetsNothingLater(r: Range, b: seq<Range>, j: nat)
    requires r.Valid() && Canonical(b) && j < |b| && Place(r.to) <= Place(b[j].to)
    ensures RangePlaces(r) * Places(b) == RangePlaces(r) * (Places(b[..j]) + RangePlaces(b[j]))
  {
    hide Places;
    forall p | p in RangePlaces(r)
      ensures p in Places(b) <==> p in Places(b[..j]) + RangePlaces(b[j])
    {
      Held(b, p);
      Held(b[..j], p);
      if m :| 0 <= m < |b| && p in RangePlaces(b[m]) {
        if m < j {
          assert b[..j][m] == b[m];
        }
      }
      if m :| 0 <= m < j && p in RangePlaces(b[..j][m]) {
        assert b[..j][m] == b[m];
      }
    }
  }

  lemma {:induction false} WithinPrefix(b: seq<Range>, j: nat)
    requires j <= |b|
    ensures Places(b[..j]) <= Places(b)
  {
    hide Places, RangePlaces;
    forall p | p in Places(b[..j])
      ensures p in Places(b)
    {
      Held(b[..j], p);
      var m :| 0 <= m < j && p in RangePlaces(b[..j][m]);
      assert b[..j][m] == b[m];
      Held(b, p);
    }
  }

  lemma {:induction false} Within(b: seq<Range>, j: nat)
    requires j < |b|
    ensures RangePlaces(b[j]) <= Places(b)
  {
    hide Places, RangePlaces;
    forall p | p in RangePlaces(b[j])
      ensures p in Places(b)
    {
      Held(b, p);
    }
  }

  lemma {:induction false} AllPassed(out: seq<Range>, a: seq<Range>, i: nat, b: seq<Range>, j: nat)
    requires Canonical(a) && Canonical(b) && i <= |a| && j <= |b| && Intersecting(out, a, i, b, j)
    requires i == |a| || j == |b|
    ensures Canonical(out) && Places(out) == Places(a) * Places(b)
  {
    hide Places;
    assert a[..|a|] == a && b[..|b|] == b;
    WithinPrefix(a, i);
    WithinPrefix(b, j);
  }

  lemma NothingPassed(a: seq<Range>, b: seq<Range>)
    requires Canonical(a) && Canonical(b)
    ensures Intersecting([], a, 0, b, 0)
  {
  }

  /** The addresses in both a and b, in canonical form. */
  method Intersect(a0: seq<Range>, b0: seq<Range>) returns (out: seq<Range>)
    ensures Canonical(out) && Places(out) == Places(a0) * Places(b0)
  {
    hide Places, RangePlaces, Canonical, Intersecting, Compare;
    var a := Merge(a0);
    var b := Merge(b0);
    CanonicalIsValid(a);
    CanonicalIsValid(b);
    out := [];
    var i, j := 0, 0;
    NothingPassed(a, b);
    while i < |a| && j < |b|
      invariant i <= |a| && j <= |b| && Intersecting(out, a, i, b, j)
    {
      PassesRange(out, a, i, b, j);
      SharedPlaces(a[i], b[j]);
      var from, to := a[i].from, a[i].to;
      if Compare(from, b[j].from) < 0 {
        from := b[j].from;
      }
      if Compare(b[j].to, to) < 0 {
        to := b[j].to;
      }
      if Compare(from, to) <= 0 {
        out := out + [Range(from, to)];
      }
      if Compare(a[i].to, b[j].to) < 0 {
        i := i + 1;
      } else {
        j := j + 1;
      }
    }
    AllPassed(out, a, i, b, j);
  }

  // ----- Counting -----

  const TWO64: nat := 0x1_0000_0000_0000_0000

  type uint64 = n: int | 0 <= n < TWO64

  /** The sum and the carry of two words. */
  function Add64(x: uint64, y: uint64, carry: uint64): (uint64, uint64)
    requires carry <= 1
  {
    if x + y + carry < TWO64 then (x + y + carry, 0) else (x + y + carry - TWO64, 1)
  }

  /** The difference and the borrow of two words. */
  function Sub64(x: uint64, y: uint64, borrow: uint64): (uint64, uint64)
    requires borrow <= 1
  {
    if x >= y + borrow then (x - y - borrow, 0) else (x + TWO64 - y - borrow, 1)
  }

  /** The sixteen-byte form of an address as two words, in which an IPv4 address is
      mapped into IPv6. */
  function As16(a: Addr): (uint64, uint64)
    requires a.Addr?
  {
    if a.family.V4? then (0, 0xffff_0000_0000 + a.value) else (a.value / TWO64, a.value % TWO64)
  }

  /** The difference of a range's ends as a 128-bit number. */
  function Difference(r: Range): (words: (uint64, uint64))
    requires r.Valid()
    ensures words.0 * TWO64 + words.1 == Place(r.to) - Place(r.from)
  {
    var (fromHigh, fromLow) := As16(r.from);
    var (toHigh, toLow) := As16(r.to);
    var (low, borrow) := Sub64(toLow, fromLow, 0);
    var (high, _) := Sub64(toHigh, fromHigh, borrow);
    WordsOf(r.from);
    WordsOf(r.to);
    (high, low)
  }

  lemma WordsOf(a: Addr)
    requires a.Addr?
    ensures As16(a).0 * TWO64 + As16(a).1 == a.value + (if a.family.V4? then 0xffff_0000_0000 else 0)
  {
  }

  /** The number of addresses of the ranges, each counted as given. */
  function TrueCount(ranges: seq<Range>): nat {
    if ranges == [] then 0
    else
      var r := ranges[|ranges| - 1];
      TrueCount(ranges[..|ranges| - 1]) + if r.Valid() then Count(r) else 0
  }

  function Count(r: Range): (n: nat)
    requires r.Valid()
    ensures n == |RangePlaces(r)|
  {
    PlaceKeepsOrder(r.from, r.to);
    SpanSize(Place(r.from), Place(r.to));
    Place(r.to) - Place(r.from) + 1
  }

  lemma {:induction false} SpanSize(lo: int, hi: int)
    requires lo <= hi + 1
    ensures |Span(lo, hi)| == hi - lo + 1
    decreases hi - lo
  {
    hide Span;
    SpanNext(lo, hi);
    if lo > hi {
    } else {
      SpanSize(lo, hi - 1);
    }
  }

  lemma SpanNext(lo: int, hi: int)
    ensures lo > hi ==> Span(lo, hi) == {}
    ensures lo <= hi ==> Span(lo, hi) == Span(lo, hi - 1) + {hi} && hi !in Span(lo, hi - 1)
  {
  }

  lemma {:induction false} TrueCountGrows(ranges: seq<Range>, n: nat)
    requires n <= |ranges|
    ensures TrueCount(ranges[..n]) <= TrueCount(ranges)
    decreases |ranges| - n
  {
    if n < |ranges| {
      assert ranges[..n + 1][..n] == ranges[..n];
      TrueCountGrows(ranges, n + 1);
    } else {
      assert ranges[..n] == ranges;
    }
  }

  /** On merged ranges the count is that of the set of their addresses. */
  lemma {:induction false} MergedCount(ranges: seq<Range>)
    requires Canonical(ranges)
    ensures TrueCount(ranges) == |Places(ranges)|
  {
    hide RangePlaces, Count;
    if ranges == [] {
    } else {
      var n := |ranges| - 1;
      MergedCount(ranges[..n]);
      CanonicalPlaces(ranges, n);
      PlacesPrefix(ranges, n);
      assert ranges[..n + 1] == ranges;
      LastIsApart(ranges, n);
    }
  }

  lemma LastIsApart(ranges: seq<Range>, n: nat)
    requires Canonical(ranges) && |ranges| == n + 1
    ensures Places(ranges[..n]) !! RangePlaces(ranges[n])
  {
    hide Places;
    CanonicalPlaces(ranges, n);
  }

  /** The count up to a limit, and whether the true count is above it. */
  method CountCapped(ranges: seq<Range>, limit: uint64) returns (count: uint64, saturated: bool)
    ensures saturated <==> TrueCount(ranges) > limit
    ensures count == if TrueCount(ranges) > limit then limit else TrueCount(ranges)
  {
    count := 0;
    for i := 0 to |ranges|
      invariant count == TrueCount(ranges[..i]) <= limit
    {
      assert ranges[..i + 1][..i] == ranges[..i];
      TrueCountGrows(ranges, i + 1);
      if !ranges[i].Valid() {
        continue;
      }
      var (high, low) := Difference(ranges[i]);
      if high != 0 || low == TWO64 - 1 {
        return limit, true;
      }
      var (sum, carry) := Add64(count, low + 1, 0);
      if carry != 0 || sum > limit {
        return limit, true;
      }
      count := sum;
    }
    assert ranges[..|ranges|] == ranges;
    saturated := false;
  }
}
