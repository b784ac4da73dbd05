/** Binary searches of merged ranges, against their meaning as sets of addresses. */
module PerimeterSearch {
  import opened AddressRanges
  import GoSearch

  ghost predicate Meet(a: Range, b: Range) {
    exists p :: p in RangePlaces(a) && p in RangePlaces(b)
  }

  lemma MergedEndsGrow(merged: seq<Range>)
    requires Canonical(merged)
    ensures forall i, j :: 0 <= i < j < |merged| ==> Place(merged[i].to) < Place(merged[j].from) <= Place(merged[j].to)
    ensures forall i :: 0 <= i < |merged| ==> Place(merged[i].from) <= Place(merged[i].to)
  {
    forall i | 0 <= i < |merged|
      ensures Place(merged[i].from) <= Place(merged[i].to)
    {
      PlaceKeepsOrder(merged[i].from, merged[i].to);
    }
  }

  lemma ComparesPlaces(a: Addr, b: Addr)
    requires a.Addr? && b.Addr?
    ensures Compare(a, b) >= 0 <==> Place(a) >= Place(b)
    ensures Compare(a, b) > 0 <==> Place(a) > Place(b)
    ensures Compare(a, b) <= 0 <==> Place(a) <= Place(b)
  {
    PlaceKeepsOrder(a, b);
  }

  /** Two valid ranges share an address when neither ends before the other starts. */
  lemma MeetingRanges(a: Range, b: Range)
    requires a.Valid() && b.Valid()
    ensures Meet(a, b) <==> Place(a.to) >= Place(b.from) && Place(a.from) <= Place(b.to)
  {
    PlaceKeepsOrder(a.from, a.to);
    PlaceKeepsOrder(b.from, b.to);
    var first := if Place(a.from) < Place(b.from) then Place(b.from) else Place(a.from);
    if Place(a.to) >= Place(b.from) && Place(a.from) <= Place(b.to) {
      assert first in RangePlaces(a) && first in RangePlaces(b);
    }
  }

  /** The ranges of a merged list that share an address with a range. */
  method Clip(merged: seq<Range>, r: Range) returns (out: seq<Range>, ghost start: nat)
    requires Canonical(merged) && r.Valid()
    ensures start + |out| <= |merged| && out == merged[start..start + |out|]
    ensures forall i :: 0 <= i < |merged| ==> (start <= i < start + |out| <==> Meet(merged[i], r))
    ensures Canonical(out) && Places(out) * RangePlaces(r) == Places(merged) * RangePlaces(r)
  {
    hide Places, RangePlaces, Meet, Compare;
    MergedEndsGrow(merged);
    ComparesAt(merged, r);
    var endsLater := i => 0 <= i < |merged| && Compare(merged[i].to, r.from) >= 0;
    var first := GoSearch.Search(|merged|, endsLater);
    start := first;
    var startsAfter := i => 0 <= i < |merged| - first && Compare(merged[first + i].from, r.to) > 0;
    var count := GoSearch.Search(|merged| - first, startsAfter);
    out := merged[first..first + count];
    forall i | 0 <= i < |merged|
      ensures start <= i < start + |out| <==> Meet(merged[i], r)
    {
      MeetingRanges(merged[i], r);
      assert endsLater(i) <==> first <= i;
      assert first <= i ==> (startsAfter(i - first) <==> first + count <= i);
    }
    ClippedPlaces(merged, r, first, first + count);
  }

  lemma ComparesAt(merged: seq<Range>, r: Range)
    requires Canonical(merged) && r.Valid()
    ensures forall i :: 0 <= i < |merged| ==>
              && (Compare(merged[i].to, r.from) >= 0 <==> Place(merged[i].to) >= Place(r.from))
              && (Compare(merged[i].from, r.to) > 0 <==> Place(merged[i].from) > Place(r.to))
              && (Compare(merged[i].from, r.from) <= 0 <==> Place(merged[i].from) <= Place(r.from))
              && (Compare(merged[i].to, r.to) >= 0 <==> Place(merged[i].to) >= Place(r.to))
  {
    hide Compare;
    forall i | 0 <= i < |merged|
      ensures Compare(merged[i].to, r.from) >= 0 <==> Place(merged[i].to) >= Place(r.from)
      ensures Compare(merged[i].from, r.to) > 0 <==> Place(merged[i].from) > Place(r.to)
      ensures Compare(merged[i].from, r.from) <= 0 <==> Place(merged[i].from) <= Place(r.from)
      ensures Compare(merged[i].to, r.to) >= 0 <==> Place(merged[i].to) >= Place(r.to)
    {
      ComparesPlaces(merged[i].to, r.from);
      ComparesPlaces(merged[i].from, r.to);
      ComparesPlaces(merged[i].from, r.from);
      ComparesPlaces(merged[i].to, r.to);
    }
  }

  /** Ranges that do not meet another hold none of its addresses. */
  lemma {:induction false} ClippedPlaces(merged: seq<Range>, r: Range, start: nat, end: nat)
    requires start <= end <= |merged|
    requires forall i :: 0 <= i < |merged| && Meet(merged[i], r) ==> start <= i < end
    ensures Places(merged[start..end]) * RangePlaces(r) == Places(merged) * RangePlaces(r)
  {
    hide Places, RangePlaces;
    var out := merged[start..end];
    forall p | p in RangePlaces(r)
      ensures p in Places(out) <==> p in Places(merged)
    {
      Held(out, p);
      Held(merged, p);
      if i :| 0 <= i < |merged| && p in RangePlaces(merged[i]) {
        assert Meet(merged[i], r);
        assert out[i - start] == merged[i];
      }
      if i :| 0 <= i < |out| && p in RangePlaces(out[i]) {
        assert out[i] == merged[start + i];
      }
    }
  }

  /** Whether a merged list holds every address of a range. */
  method Contains(merged: seq<Range>, r: Range) returns (contains: bool)
    requires Canonical(merged) && r.Valid()
    ensures contains <==> RangePlaces(r) <= Places(merged)
  {
    hide Places, RangePlaces, Compare;
    MergedEndsGrow(merged);
    ComparesAt(merged, r);
    var endsLater := i => 0 <= i < |merged| && Compare(merged[i].to, r.from) >= 0;
    var index := GoSearch.Search(|merged|, endsLater);
    forall i | 0 <= i < |merged|
      ensures Place(merged[i].to) >= Place(r.from) <==> index <= i
    {
      assert endsLater(i) <==> index <= i;
    }
    contains := index < |merged| && Compare(merged[index].from, r.from) <= 0 && Compare(merged[index].to, r.to) >= 0;
    ContainedInOne(merged, r, index);
  }

  /** Merged ranges do not touch, so only the one that could hold a range's first
      address could hold them all. */
  lemma {:induction false} ContainedInOne(merged: seq<Range>, r: Range, index: nat)
    requires Canonical(merged) && r.Valid() && index <= |merged|
    requires forall i :: 0 <= i < index ==> Place(merged[i].to) < Place(r.from)
    requires forall i :: index <= i < |merged| ==> Place(merged[i].to) >= Place(r.from)
    ensures RangePlaces(r) <= Places(merged) <==>
              index < |merged| && Place(merged[index].from) <= Place(r.from) && Place(merged[index].to) >= Place(r.to)
  {
    hide Places;
    PlaceKeepsOrder(r.from, r.to);
    MergedEndsGrow(merged);
    HeldFrom(merged, index, Place(r.from));
    assert Place(r.from) in RangePlaces(r);
    if index < |merged| {
      var p := Place(merged[index].to) + 1;
      HeldFrom(merged, index + 1, p);
      assert p !in Places(merged) && (p <= Place(r.to) ==> p in RangePlaces(r));
      WithinOne(merged, index, merged[index].from);
    }
  }

  /** Whether any of some ranges shares an address with a merged list. */
  method Overlaps(merged: seq<Range>, ranges: seq<Range>) returns (overlaps: bool)
    requires Canonical(merged) && AllValid(ranges)
    ensures overlaps <==> Places(merged) * Places(ranges) != {}
  {
    hide Places, RangePlaces, Meet, Canonical;
    NoPlaces();
    for i := 0 to |ranges|
      invariant Places(merged) * Places(ranges[..i]) == {}
    {
      var shared, start := Clip(merged, ranges[i]);
      PlacesPrefix(ranges, i);
      ClipDecides(merged, ranges[i], shared, start);
      WithinPrefix(ranges, i + 1);
      if |shared| > 0 {
        assert Places(merged) * Places(ranges) >= Places(merged) * Places(ranges[..i + 1]);
        return true;
      }
    }
    assert ranges[..|ranges|] == ranges;
    return false;
  }

  lemma {:induction false} ClipDecides(merged: seq<Range>, r: Range, out: seq<Range>, start: nat)
    requires start + |out| <= |merged| && out == merged[start..start + |out|]
    requires forall i :: 0 <= i < |merged| ==> (start <= i < start + |out| <==> Meet(merged[i], r))
    ensures Places(merged) * RangePlaces(r) != {} <==> |out| > 0
  {
    hide Places, RangePlaces;
    if |out| > 0 {
      assert Meet(merged[start], r);
      var p :| p in RangePlaces(merged[start]) && p in RangePlaces(r);
      Held(merged, p);
      assert p in Places(merged) * RangePlaces(r);
    } else {
      forall p
        ensures p !in Places(merged) * RangePlaces(r)
      {
        Held(merged, p);
      }
    }
  }
}
