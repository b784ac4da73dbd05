/** The coverage counts of a declared range. */
module PerimeterCounts {
  import opened FiniteSets
  import opened AddressRanges
  import opened CidrCover
  import opened PerimeterSearch

  // ----- Which monitors fill which bucket -----

  datatype Bucket = FullTCP | AnyTCP | UDP

  datatype Engine = Unset | Nmap | NaabuNmap | OtherEngine

  /** What a job scans: TCP with an engine over every port or some, and UDP. */
  datatype Protocols = Protocols(tcp: bool, engine: Engine, everyPort: bool, udp: bool)

  /** The buckets that a job's protocols fill. */
  function JobBuckets(job: Protocols): seq<Bucket> {
    (if job.tcp then
       (if job.engine.NaabuNmap? || ((job.engine.Unset? || job.engine.Nmap?) && job.everyPort) then [FullTCP] else []) + [AnyTCP]
     else [])
    + (if job.udp then [UDP] else [])
  }

  /** A monitor, which covers its ranges or, for example, is disabled. */
  datatype Monitor = Monitor(covering: bool, job: Protocols, ranges: seq<Range>)

  predicate Fills(m: Monitor, bucket: Bucket) {
    m.covering && bucket in JobBuckets(m.job)
  }

  ghost function BucketPlaces(monitors: seq<Monitor>, bucket: Bucket): set<int> {
    if monitors == [] then {}
    else
      var last := monitors[|monitors| - 1];
      BucketPlaces(monitors[..|monitors| - 1], bucket) + if Fills(last, bucket) then Places(last.ranges) else {}
  }

  /** A monitor covers the place with a full TCP scan, some TCP scan, or a UDP scan: a
      TCP scan is full when Naabu finds the ports for Nmap, or when Nmap, which is
      the engine when none is set, scans every port. */
  ghost predicate CoversIn(m: Monitor, bucket: Bucket, place: int) {
    && m.covering && place in Places(m.ranges)
    && match bucket
       case FullTCP => m.job.tcp && (m.job.engine == NaabuNmap || (m.job.engine in {Unset, Nmap} && m.job.everyPort))
       case AnyTCP => m.job.tcp
       case UDP => m.job.udp
  }

  lemma {:induction false} InBucket(monitors: seq<Monitor>, bucket: Bucket, place: int)
    ensures place in BucketPlaces(monitors, bucket) <==> exists i :: 0 <= i < |monitors| && CoversIn(monitors[i], bucket, place)
  {
    hide Places, CoversIn;
    if monitors == [] {
    } else {
      var n := |monitors| - 1;
      InBucket(monitors[..n], bucket, place);
      FillsWith(monitors[n], bucket, place);
      if i :| 0 <= i < |monitors| && CoversIn(monitors[i], bucket, place) {
        if i < n {
          assert monitors[..n][i] == monitors[i];
        }
      }
    }
  }

  lemma FillsWith(m: Monitor, bucket: Bucket, place: int)
    ensures CoversIn(m, bucket, place) <==> Fills(m, bucket) && place in Places(m.ranges)
  {
    hide Places;
  }

  /** What a full TCP scan covers, a TCP scan covers. */
  lemma {:induction false} FullIsAny(monitors: seq<Monitor>)
    ensures BucketPlaces(monitors, FullTCP) <= BucketPlaces(monitors, AnyTCP)
  {
    hide Places;
    if monitors == [] {
    } else {
      FullIsAny(monitors[..|monitors| - 1]);
      AnyToo(monitors[|monitors| - 1]);
    }
  }

  lemma AnyToo(m: Monitor)
    ensures Fills(m, FullTCP) ==> Fills(m, AnyTCP)
  {
  }

  lemma {:induction false} PlacesConcat(a: seq<Range>, b: seq<Range>)
    ensures Places(a + b) == Places(a) + Places(b)
  {
    hide RangePlaces;
    if b == [] {
      assert a + b == a;
    } else {
      var n := |b| - 1;
      PlacesConcat(a, b[..n]);
      assert (a + b)[..|a| + n] == a + b[..n];
    }
  }

  /** The merged ranges of the monitors that fill a bucket. */
  method Bucketed(monitors: seq<Monitor>, bucket: Bucket) returns (merged: seq<Range>)
    ensures Canonical(merged) && Places(merged) == BucketPlaces(monitors, bucket)
    ensures forall place :: place in Places(merged) <==>
              exists i :: 0 <= i < |monitors| && monitors[i].covering && place in Places(monitors[i].ranges)
                && match bucket
                   case FullTCP =>
                     monitors[i].job.tcp && (monitors[i].job.engine == NaabuNmap
                                             || (monitors[i].job.engine in {Unset, Nmap} && monitors[i].job.everyPort))
                   case AnyTCP => monitors[i].job.tcp
                   case UDP => monitors[i].job.udp
  {
    hide Places, RangePlaces, Canonical, JobBuckets;
    forall place {
      InBucket(monitors, bucket, place);
    }
    var covered: seq<Range> := [];
    NoPlaces();
    for i := 0 to |monitors|
      invariant Places(covered) == BucketPlaces(monitors[..i], bucket)
    {
      assert monitors[..i + 1][..i] == monitors[..i];
      if Fills(monitors[i], bucket) {
        PlacesConcat(covered, monitors[i].ranges);
        covered := covered + monitors[i].ranges;
      }
    }
    assert monitors[..|monitors|] == monitors;
    merged := Merge(covered);
  }

  // ----- Counting -----

  /** Where every count of the report stops. */
  const COUNT_LIMIT: uint64 := 0x1f_ffff_ffff_ffff

  function Capped(n: nat): nat {
    if n > COUNT_LIMIT then COUNT_LIMIT else n
  }

  method CountOf(ranges: seq<Range>) returns (count: uint64)
    ensures count == Capped(TrueCount(ranges))
    ensures count == if TrueCount(ranges) < 0x1f_ffff_ffff_ffff then TrueCount(ranges) else 0x1f_ffff_ffff_ffff
  {
    var saturated;
    count, saturated := CountCapped(ranges, COUNT_LIMIT);
  }

  lemma {:induction false} CountConcat(a: seq<Range>, b: seq<Range>)
    ensures TrueCount(a + b) == TrueCount(a) + TrueCount(b)
  {
    hide Count;
    if b == [] {
      assert a + b == a;
    } else {
      var n := |b| - 1;
      CountConcat(a, b[..n]);
      assert (a + b)[..|a| + n] == a + b[..n];
    }
  }

  /** The addresses of base that a bucket covers, counted range by range. */
  method CoveredCount(base: seq<Range>, bucket: seq<Range>) returns (count: uint64)
    requires Canonical(base) && Canonical(bucket)
    ensures count == Capped(|Places(base) * Places(bucket)|)
  {
    hide Places, RangePlaces, Canonical, TrueCount, Capped, AllValid;
    var covered: seq<Range> := [];
    NoPlaces();
    NothingCounted();
    CanonicalIsValid(base);
    for i := 0 to |base|
      invariant TrueCount(covered) == |Places(base[..i]) * Places(bucket)|
    {
      ValidAt(base, i);
      var clipped, _ := Clip(bucket, base[i]);
      var shared := Intersect([base[i]], clipped);
      OneRange(base[i]);
      MergedCount(shared);
      CountConcat(covered, shared);
      NextCovered(base, i, Places(bucket), Places(clipped), Places(shared));
      covered := covered + shared;
    }
    assert base[..|base|] == base;
    count := CountOf(covered);
  }

  lemma NothingCounted()
    ensures TrueCount([]) == 0
  {
  }

  lemma NextCovered(base: seq<Range>, i: nat, bucket: set<int>, clipped: set<int>, shared: set<int>)
    requires Canonical(base) && i < |base|
    requires clipped * RangePlaces(base[i]) == bucket * RangePlaces(base[i]) && shared == RangePlaces(base[i]) * clipped
    ensures |Places(base[..i + 1]) * bucket| == |Places(base[..i]) * bucket| + |shared|
  {
    hide Places, RangePlaces;
    PlacesPrefix(base, i);
    assert base[..i + 1][..i] == base[..i];
    LastIsApart(base[..i + 1], i);
    assert shared == bucket * RangePlaces(base[i]);
    assert Places(base[..i + 1]) * bucket == Places(base[..i]) * bucket + shared;
    assert (Places(base[..i]) * bucket) !! shared;
  }

  // ----- A declared range -----

  /** The counts of a declared IPv4 range, and what each bucket leaves uncovered. */
  datatype View = View(addresses: nat, excluded: nat, covered: nat, uncovered: seq<Range>)

  /** The addresses of a range outside the exclusions. */
  method Scannable(r: Range, exclusions: seq<Range>) returns (base: seq<Range>)
    requires Canonical(exclusions) && r.Valid()
    ensures Canonical(base) && Places(base) == RangePlaces(r) - Places(exclusions)
  {
    hide Places, RangePlaces, Canonical;
    var clipped, _ := Clip(exclusions, r);
    OneRange(r);
    base := Subtract([r], clipped);
    OutsideIs(RangePlaces(r), Places(clipped), Places(exclusions));
  }

  lemma OutsideIs(r: set<int>, clipped: set<int>, all: set<int>)
    requires clipped * r == all * r
    ensures r - clipped == r - all && r * clipped == r * all
  {
    forall p | p in r
      ensures p in clipped <==> p in all
    {
      assert p in clipped * r <==> p in all * r;
    }
  }

  /** The view of a declared IPv4 range in one bucket. No count saturates, and each
      address is excluded, covered or uncovered. */
  method RangeView(prefix: Prefix, exclusions: seq<Range>, bucket: seq<Range>) returns (view: View, ghost whole: Range)
    requires prefix.IsValid() && prefix.addr.family.V4? && Canonical(exclusions) && Canonical(bucket)
    ensures whole.Valid() && whole.from.value == Masked(prefix.addr.value, prefix.HostBits())
    ensures whole.to.value == WithHostBits(prefix.addr.value, prefix.HostBits()) && whole.from.family.V4?
    ensures view.addresses == |RangePlaces(whole)|
    ensures view.excluded == |RangePlaces(whole) * Places(exclusions)|
    ensures view.covered == |(RangePlaces(whole) - Places(exclusions)) * Places(bucket)|
    ensures Canonical(view.uncovered) && Places(view.uncovered) == RangePlaces(whole) - Places(exclusions) - Places(bucket)
    ensures view.addresses == view.excluded + view.covered + TrueCount(view.uncovered)
  {
    hide Places, RangePlaces, Canonical, TrueCount, Masked, WithHostBits, Network;
    var r := FromPrefix(prefix);
    whole := r;
    IPv4IsSmall(r);
    OneRange(r);
    OneCount(r);
    var clipped, _ := Clip(exclusions, r);
    var excludedRanges := Intersect([r], clipped);
    OutsideIs(RangePlaces(r), Places(clipped), Places(exclusions));
    MergedCount(excludedRanges);
    var base := Scannable(r, exclusions);
    var addresses := CountOf([r]);
    var excluded := CountOf(excludedRanges);
    var covered := CoveredCount(base, bucket);
    var near, _ := Clip(bucket, r);
    var uncovered := Subtract(base, near);
    MergedCount(uncovered);
    view := View(addresses, excluded, covered, uncovered);
    InThree(RangePlaces(r), Places(exclusions), Places(bucket), Places(near), Places(base), Places(uncovered));
  }

  lemma OneCount(r: Range)
    requires r.Valid()
    ensures TrueCount([r]) == |RangePlaces(r)|
  {
    assert [r][..0] == [];
  }

  lemma IPv4IsSmall(r: Range)
    requires r.Valid() && r.from.family.V4?
    ensures |RangePlaces(r)| <= COUNT_LIMIT
  {
    assert |RangePlaces(r)| == Count(r);
  }

  lemma InThree(r: set<int>, exclusions: set<int>, bucket: set<int>, near: set<int>, base: set<int>, uncovered: set<int>)
    requires base == r - exclusions && uncovered == base - near && near * r == bucket * r
    ensures uncovered == r - exclusions - bucket
    ensures |r| == |r * exclusions| + |base * bucket| + |uncovered|
    ensures |r * exclusions| <= |r| && |base * bucket| <= |r|
  {
    OutsideIs(r, near, bucket);
    var excluded, covered := r * exclusions, base * bucket;
    assert r == excluded + covered + uncovered;
    assert excluded !! covered && (excluded + covered) !! uncovered;
    SubsetIsSmaller(excluded, r);
    SubsetIsSmaller(covered, r);
  }

  /** On any declared range, full TCP coverage never exceeds any TCP coverage. */
  lemma FullNeverExceedsAny(monitors: seq<Monitor>, base: set<int>)
    ensures |base * BucketPlaces(monitors, FullTCP)| <= |base * BucketPlaces(monitors, AnyTCP)|
  {
    FullIsAny(monitors);
    SubsetIsSmaller(base * BucketPlaces(monitors, FullTCP), base * BucketPlaces(monitors, AnyTCP));
  }
}
